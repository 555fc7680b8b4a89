/** The latest-event mailbox as interleaved atomic steps: one producer writes
    word by word into one of three slots and publishes a token, one reader
    reserves the published slot, copies it word by word and consumes the token.
    Steps are sequentially consistent; tokens are unbounded. */
module LatestMailbox {
  import opened Words

  type Word = int
  type Event = seq<Word>

  const SLOTS: nat := 3
  const NO_SLOT: nat := 0xFFFF_FFFF

  /** The shared token word, unpacked; generations start at one. */
  datatype Token = NoToken | Token(generation: nat, slot: nat)

  /** The word itself: the slot in its two low bits, zero for no token. */
  function Packed(t: Token): nat {
    if t.NoToken? then 0 else 4 * t.generation + t.slot
  }

  ghost predicate Proper(t: Token) {
    t.Token? ==> t.generation > 0 && t.slot < SLOTS
  }

  /** Comparing, masking and testing packed words is what the model does to
      tokens; and packed words grow with the generation. */
  lemma PackingIsFaithful(t: Token, u: Token)
    requires Proper(t) && Proper(u)
    ensures Packed(t) == Packed(u) <==> t == u
    ensures Packed(t) == 0 <==> t.NoToken?
    ensures t.Token? ==> Packed(t) % 4 == t.slot && Packed(t) / 4 == t.generation
    ensures Generation(t) < Generation(u) ==> Packed(t) < Packed(u)
  {
  }

  function Generation(t: Token): nat {
    if t.NoToken? then 0 else t.generation
  }

  /** Where the producer stands in publish. */
  datatype Producer =
    | Resting
    | LoadingPublished(event: Event)
    | LoadingConsumed(event: Event, previous: Token)
    | LoadingReader(event: Event, previous: Token, replaced: bool)
    | Writing(event: Event, selected: nat, replaced: bool, next: nat)

  /** Where the reader stands in try_take. */
  datatype Reader =
    | Waiting
    | Loading
    | Comparing(token: Token)
    | Claiming(token: Token)
    | Rechecking(token: Token)
    | Retracting(token: Token)
    | Copying(token: Token, copy: Event)
    | Clearing(token: Token, copy: Event)
    | Confirming(token: Token, copy: Event)
    | Consuming(token: Token, copy: Event)

  /** A completed publish: the slot, the event and what replaced_pending said. */
  datatype Publication = Publication(slot: nat, event: Event, replaced: bool)

  datatype Taken = Taken(token: Token, event: Event)

  /** The shared words, where both threads stand, and two histories. */
  datatype State = State(
    slots: seq<Event>, generation: nat, published: Token, consumed: Token, readerSlot: nat,
    producer: Producer, reader: Reader, log: seq<Publication>, taken: seq<Taken>)

  datatype Action = Publish(event: Event) | Produce | Take | Read

  function SlotIn(t: Token): nat {
    if t.NoToken? then NO_SLOT else t.slot
  }

  function Initial(junk: Event): State {
    State([junk, junk, junk], 0, NoToken, NoToken, NO_SLOT, Resting, Waiting, [], [])
  }

  /** The first slot that is neither published nor claimed. */
  function Select(active: nat, claimed: nat): nat {
    if 0 != active && 0 != claimed then 0
    else if 1 != active && 1 != claimed then 1
    else if 2 != active && 2 != claimed then 2
    else NO_SLOT
  }

  /** publish always finds a slot to write to. */
  lemma SlotIsAvailable(active: nat, claimed: nat)
    ensures Select(active, claimed) < SLOTS
    ensures Select(active, claimed) != active && Select(active, claimed) != claimed
  {
  }

  function ProducerStep(s: State): State {
    match s.producer
    case Resting => s
    case LoadingPublished(e) => s.(producer := LoadingConsumed(e, s.published))
    case LoadingConsumed(e, previous) =>
      s.(producer := LoadingReader(e, previous, previous != NoToken && previous != s.consumed))
    case LoadingReader(e, previous, replaced) =>
      var active := SlotIn(previous);
      var selected := Select(active, s.readerSlot);
      s.(producer := if selected == NO_SLOT then Resting else Writing(e, selected, replaced, 0))
    case Writing(e, selected, replaced, i) =>
      if selected < |s.slots| && i < |e| && i < |s.slots[selected]| then
        s.(slots := s.slots[selected := s.slots[selected][i := e[i]]],
           producer := Writing(e, selected, replaced, i + 1))
      else
        s.(generation := s.generation + 1, published := Token(s.generation + 1, selected), producer := Resting,
           log := s.log + [Publication(selected, e, replaced)])
  }

  function ReaderStep(s: State): State {
    match s.reader
    case Waiting => s
    case Loading => s.(reader := if s.published == NoToken then Waiting else Comparing(s.published))
    case Comparing(token) => s.(reader := if token == s.consumed then Waiting else Claiming(token))
    case Claiming(token) => s.(readerSlot := SlotIn(token), reader := Rechecking(token))
    case Rechecking(token) => s.(reader := if s.published != token then Retracting(token) else Copying(token, []))
    case Retracting(token) => s.(readerSlot := NO_SLOT, reader := Loading)
    case Copying(token, copy) =>
      if SlotIn(token) < |s.slots| && |copy| < |s.slots[SlotIn(token)]| then
        s.(reader := Copying(token, copy + [s.slots[SlotIn(token)][|copy|]]))
      else s.(reader := Clearing(token, copy))
    case Clearing(token, copy) => s.(readerSlot := NO_SLOT, reader := Confirming(token, copy))
    case Confirming(token, copy) => s.(reader := if s.published != token then Loading else Consuming(token, copy))
    case Consuming(token, copy) =>
      s.(consumed := token, reader := Waiting, taken := s.taken + [Taken(token, copy)])
  }

  /** One atomic step; a step that is not possible changes nothing. */
  function Step(width: nat, s: State, a: Action): State {
    match a
    case Publish(e) => if s.producer.Resting? && |e| == width then s.(producer := LoadingPublished(e)) else s
    case Produce => ProducerStep(s)
    case Take => if s.reader.Waiting? then s.(reader := Loading) else s
    case Read => ReaderStep(s)
  }

  function Run(width: nat, s: State, actions: seq<Action>): State
    decreases |actions|
  {
    if actions == [] then s else Run(width, Step(width, s, actions[0]), actions[1..])
  }

  // --------------------------------------------------------------- invariant

  /** The token of a completed publish. */
  function TokenAt(log: seq<Publication>, g: nat): Token
    requires 0 < g <= |log|
  {
    Token(g, log[g - 1].slot)
  }

  ghost predicate Shape(width: nat, s: State) {
    && |s.slots| == SLOTS
    && (forall i :: 0 <= i < |s.slots| ==> |s.slots[i]| == width)
    && s.generation == |s.log|
    && s.published == LastToken(s.log)
  }

  function LastToken(log: seq<Publication>): Token {
    if log == [] then NoToken else TokenAt(log, |log|)
  }

  ghost predicate LogOk(width: nat, log: seq<Publication>) {
    forall i :: 0 <= i < |log| ==> log[i].slot < SLOTS && |log[i].event| == width
  }

  /** A token that was published. */
  ghost predicate Issued(log: seq<Publication>, token: Token) {
    token.Token? && 0 < token.generation <= |log| && token == TokenAt(log, token.generation)
  }

  function EventOf(log: seq<Publication>, token: Token): Event
    requires Issued(log, token)
  {
    log[token.generation - 1].event
  }

  ghost predicate WasTaken(taken: seq<Taken>, token: Token) {
    exists i :: 0 <= i < |taken| && taken[i].token == token
  }

  /** The slot being copied, if any. */
  function Copied(r: Reader): nat {
    if r.Copying? then SlotIn(r.token) else NO_SLOT
  }

  /** `copied` is the slot the reader is copying. */
  ghost predicate ProducerOk(
      width: nat, slots: seq<Event>, published: Token, taken: seq<Taken>, copied: nat, q: Producer)
  {
    match q
    case Resting => true
    case LoadingPublished(e) => |e| == width
    case LoadingConsumed(e, previous) => |e| == width && previous == published
    case LoadingReader(e, previous, replaced) =>
      && |e| == width && previous == published
      && (previous == NoToken || replaced || WasTaken(taken, previous))
    case Writing(e, selected, replaced, i) =>
      && |e| == width && i <= width && selected < |slots| == SLOTS && |slots[selected]| == width
      && (published == NoToken || replaced || WasTaken(taken, published))
      && selected != SlotIn(published) && selected != copied
      && slots[selected][..i] == e[..i]
  }

  /** The token lies between the consumed and the published one, strictly where
      `above` or `below` is one. */
  ghost predicate Between(s: State, token: Token, above: nat, below: nat) {
    Generation(s.consumed) + above <= Generation(token) && Generation(token) + below <= Generation(s.published)
  }

  ghost predicate ReaderOk(s: State) {
    match s.reader
    case Waiting => s.readerSlot == NO_SLOT
    case Loading => s.readerSlot == NO_SLOT
    case Comparing(token) => s.readerSlot == NO_SLOT && Issued(s.log, token) && Between(s, token, 0, 0)
    case Claiming(token) => s.readerSlot == NO_SLOT && Issued(s.log, token) && Between(s, token, 1, 0)
    case Rechecking(token) => Issued(s.log, token) && s.readerSlot == token.slot && Between(s, token, 1, 0)
    case Retracting(token) => Issued(s.log, token) && s.readerSlot == token.slot && Between(s, token, 1, 1)
    case Copying(token, copy) =>
      && s.readerSlot == SlotIn(token) && Issued(s.log, token) && Between(s, token, 1, 0)
      && token.slot < |s.slots| && s.slots[token.slot] == EventOf(s.log, token)
      && copy <= EventOf(s.log, token)
    case Clearing(token, copy) =>
      Issued(s.log, token) && s.readerSlot == token.slot && Between(s, token, 1, 0) && copy == EventOf(s.log, token)
    case Confirming(token, copy) =>
      s.readerSlot == NO_SLOT && Issued(s.log, token) && Between(s, token, 1, 0) && copy == EventOf(s.log, token)
    case Consuming(token, copy) =>
      s.readerSlot == NO_SLOT && Issued(s.log, token) && Between(s, token, 1, 0) && copy == EventOf(s.log, token)
  }

  /** Taken tokens strictly increase up to the consumed one, and each was taken
      with the event published under it. */
  ghost predicate TakenOk(log: seq<Publication>, taken: seq<Taken>, consumed: Token) {
    && (forall i :: 0 <= i < |taken| ==>
          Issued(log, taken[i].token) && taken[i].event == EventOf(log, taken[i].token))
    && (forall i, j :: 0 <= i < j < |taken| ==> Generation(taken[i].token) < Generation(taken[j].token))
    && consumed == (if taken == [] then NoToken else taken[|taken| - 1].token)
  }

  /** Every token that was replaced has been taken, or its replacement said so. */
  ghost predicate NothingLost(log: seq<Publication>, taken: seq<Taken>) {
    forall g {:trigger TokenAt(log, g)} ::
      0 < g < |log| ==> log[g].replaced || WasTaken(taken, TokenAt(log, g))
  }

  /** The published slot holds the published event. */
  ghost predicate Held(slots: seq<Event>, log: seq<Publication>) {
    log != [] ==> log[|log| - 1].slot < |slots| && slots[log[|log| - 1].slot] == log[|log| - 1].event
  }

  ghost predicate Inv(width: nat, s: State) {
    && Shape(width, s)
    && LogOk(width, s.log)
    && Held(s.slots, s.log)
    && TakenOk(s.log, s.taken, s.consumed)
    && NothingLost(s.log, s.taken)
    && ProducerOk(width, s.slots, s.published, s.taken, Copied(s.reader), s.producer)
    && ReaderOk(s)
  }

  // ------------------------------------------------------------- what is kept

  /** The producer changes only its own place. */
  lemma ProducerMoves(width: nat, s: State, q: Producer)
    requires Inv(width, s) && ProducerOk(width, s.slots, s.published, s.taken, Copied(s.reader), q)
    ensures Inv(width, s.(producer := q))
  {
    assert ReaderOk(s.(producer := q));
  }

  lemma SelectKeeps(width: nat, s: State)
    requires Inv(width, s) && s.producer.LoadingReader?
    ensures Inv(width, ProducerStep(s))
  {
    var q := s.producer;
    var selected := Select(SlotIn(q.previous), s.readerSlot);
    SlotIsAvailable(SlotIn(q.previous), s.readerSlot);
    assert s.slots[selected][..0] == q.event[..0];
    ProducerMoves(width, s, Writing(q.event, selected, q.replaced, 0));
  }

  /** The loads and the choice of a slot. */
  lemma ProducerLoadKeeps(width: nat, s: State)
    requires Inv(width, s) && !s.producer.Writing?
    ensures Inv(width, ProducerStep(s))
  {
    match s.producer
    case Resting =>
    case LoadingPublished(e) => ProducerMoves(width, s, LoadingConsumed(e, s.published));
    case LoadingConsumed(e, previous) =>
      if previous != NoToken && previous == s.consumed {
        assert s.taken[|s.taken| - 1].token == previous;
      }
      ProducerMoves(width, s, LoadingReader(e, previous, previous != NoToken && previous != s.consumed));
    case LoadingReader(e, previous, replaced) => SelectKeeps(width, s);
  }

  lemma WordKeeps(width: nat, s: State)
    requires Inv(width, s) && s.producer.Writing? && s.producer.next < width
    ensures Inv(width, ProducerStep(s))
  {
    var s', q := ProducerStep(s), s.producer;
    assert s'.slots[q.selected][..q.next + 1] == s.slots[q.selected][..q.next] + [q.event[q.next]];
    assert q.event[..q.next + 1] == q.event[..q.next] + [q.event[q.next]];
  }

  /** A token stays issued, under the same event, when another is published. */
  lemma IssuedStays(log: seq<Publication>, p: Publication, token: Token)
    requires Issued(log, token)
    ensures Issued(log + [p], token) && EventOf(log + [p], token) == EventOf(log, token)
  {
  }

  lemma TakenStays(log: seq<Publication>, p: Publication, taken: seq<Taken>, consumed: Token)
    requires TakenOk(log, taken, consumed)
    ensures TakenOk(log + [p], taken, consumed)
  {
    forall i | 0 <= i < |taken|
      ensures Issued(log + [p], taken[i].token) && taken[i].event == EventOf(log + [p], taken[i].token)
    {
      IssuedStays(log, p, taken[i].token);
    }
  }

  lemma NothingLostNext(log: seq<Publication>, p: Publication, taken: seq<Taken>)
    requires NothingLost(log, taken) && (log == [] || p.replaced || WasTaken(taken, LastToken(log)))
    ensures NothingLost(log + [p], taken)
  {
    forall g | 0 < g < |log + [p]| ensures (log + [p])[g].replaced || WasTaken(taken, TokenAt(log + [p], g)) {
      assert TokenAt(log + [p], g) == TokenAt(log, g);
    }
  }

  lemma ReaderStays(s: State, p: Publication, token: Token)
    requires ReaderOk(s) && Generation(s.published) <= Generation(token)
    ensures ReaderOk(s.(published := token, log := s.log + [p]))
  {
    if !s.reader.Waiting? && !s.reader.Loading? {
      IssuedStays(s.log, p, s.reader.token);
    }
  }

  lemma PublishKeepsSlots(width: nat, s: State)
    requires Inv(width, s) && s.producer.Writing? && s.producer.next >= width
    ensures var s' := ProducerStep(s); Shape(width, s') && LogOk(width, s'.log) && Held(s'.slots, s'.log)
  {
    var q := s.producer;
    assert s.slots[q.selected][..width] == s.slots[q.selected] && q.event[..width] == q.event;
  }

  lemma PublishKeeps(width: nat, s: State)
    requires Inv(width, s) && s.producer.Writing? && s.producer.next >= width
    ensures Inv(width, ProducerStep(s))
  {
    var s', q := ProducerStep(s), s.producer;
    var p, token := Publication(q.selected, q.event, q.replaced), Token(s.generation + 1, q.selected);
    PublishKeepsSlots(width, s);
    TakenStays(s.log, p, s.taken, s.consumed);
    NothingLostNext(s.log, p, s.taken);
    ReaderStays(s, p, token);
    assert ReaderOk(s') == ReaderOk(s.(published := token, log := s.log + [p]));
  }

  lemma ProduceKeeps(width: nat, s: State)
    requires Inv(width, s)
    ensures Inv(width, ProducerStep(s))
  {
    if !s.producer.Writing? {
      ProducerLoadKeeps(width, s);
    } else if s.producer.next < width {
      WordKeeps(width, s);
    } else {
      PublishKeeps(width, s);
    }
  }

  lemma TakenNext(log: seq<Publication>, taken: seq<Taken>, consumed: Token, t: Taken)
    requires TakenOk(log, taken, consumed) && Issued(log, t.token) && t.event == EventOf(log, t.token)
    requires Generation(consumed) < Generation(t.token)
    ensures TakenOk(log, taken + [t], t.token)
    ensures forall token :: WasTaken(taken, token) ==> WasTaken(taken + [t], token)
  {
    forall token | WasTaken(taken, token) ensures WasTaken(taken + [t], token) {
      var i :| 0 <= i < |taken| && taken[i].token == token;
      assert (taken + [t])[i].token == token;
    }
  }

  lemma ConsumeKeeps(width: nat, s: State)
    requires Inv(width, s) && s.reader.Consuming?
    ensures Inv(width, ReaderStep(s))
  {
    TakenNext(s.log, s.taken, s.consumed, Taken(s.reader.token, s.reader.copy));
  }

  /** The reader changes its place and its claim; it starts to copy only what
      is published. */
  lemma ReaderMoves(width: nat, s: State, claim: nat, r: Reader)
    requires Inv(width, s) && ReaderOk(s.(readerSlot := claim, reader := r))
    requires r.Copying? ==> Copied(r) == Copied(s.reader) || Copied(r) == SlotIn(s.published)
    ensures Inv(width, s.(readerSlot := claim, reader := r))
  {
    assert s.producer.Writing? ==> s.producer.selected != Copied(r);
  }

  lemma CopyKeeps(width: nat, s: State)
    requires Inv(width, s) && (s.reader.Rechecking? || s.reader.Copying?)
    ensures Inv(width, ReaderStep(s))
  {
    var s', token := ReaderStep(s), s.reader.token;
    if s.reader.Copying? {
      assert s'.reader.copy <= EventOf(s.log, token);
      assert s'.reader.Clearing? ==> s'.reader.copy == EventOf(s.log, token);
    }
    ReaderMoves(width, s, s'.readerSlot, s'.reader);
  }

  lemma ClaimKeeps(width: nat, s: State)
    requires Inv(width, s) && (s.reader.Waiting? || s.reader.Loading? || s.reader.Comparing? || s.reader.Claiming?)
    ensures Inv(width, ReaderStep(s))
  {
    var s' := ReaderStep(s);
    ReaderMoves(width, s, s'.readerSlot, s'.reader);
  }

  lemma ClearKeeps(width: nat, s: State)
    requires Inv(width, s) && (s.reader.Retracting? || s.reader.Clearing? || s.reader.Confirming?)
    ensures Inv(width, ReaderStep(s))
  {
    var s' := ReaderStep(s);
    ReaderMoves(width, s, s'.readerSlot, s'.reader);
  }

  lemma ReadKeeps(width: nat, s: State)
    requires Inv(width, s)
    ensures Inv(width, ReaderStep(s))
  {
    if s.reader.Consuming? {
      ConsumeKeeps(width, s);
    } else if s.reader.Rechecking? || s.reader.Copying? {
      CopyKeeps(width, s);
    } else if s.reader.Retracting? || s.reader.Clearing? || s.reader.Confirming? {
      ClearKeeps(width, s);
    } else {
      ClaimKeeps(width, s);
    }
  }

  lemma StepKeeps(width: nat, s: State, a: Action)
    requires Inv(width, s)
    ensures Inv(width, Step(width, s, a))
  {
    match a
    case Publish(e) =>
    case Produce => ProduceKeeps(width, s);
    case Take =>
    case Read => ReadKeeps(width, s);
  }

  // ---------------------------------------------------------------- every run

  lemma InitialKeeps(width: nat, junk: Event)
    requires |junk| == width
    ensures Inv(width, Initial(junk))
  {
  }

  lemma {:induction false} RunKeeps(width: nat, s: State, actions: seq<Action>)
    requires Inv(width, s)
    ensures Inv(width, Run(width, s, actions))
    decreases |actions|
  {
    if actions != [] {
      StepKeeps(width, s, actions[0]);
      RunKeeps(width, Step(width, s, actions[0]), actions[1..]);
    }
  }

  /** Never torn: in every interleaving each event taken is exactly the one
      published under its token, and taken tokens strictly increase. */
  lemma MailboxNeverTears(width: nat, junk: Event, actions: seq<Action>)
    requires |junk| == width
    ensures var s := Run(width, Initial(junk), actions);
            && (forall i :: 0 <= i < |s.taken| ==>
                  Issued(s.log, s.taken[i].token) && s.taken[i].event == EventOf(s.log, s.taken[i].token))
            && (forall i, j :: 0 <= i < j < |s.taken| ==> Packed(s.taken[i].token) < Packed(s.taken[j].token))
  {
    InitialKeeps(width, junk);
    RunKeeps(width, Initial(junk), actions);
    var s := Run(width, Initial(junk), actions);
    forall i, j | 0 <= i < j < |s.taken| ensures Packed(s.taken[i].token) < Packed(s.taken[j].token) {
      assert Issued(s.log, s.taken[i].token) && Issued(s.log, s.taken[j].token);
      PackingIsFaithful(s.taken[i].token, s.taken[j].token);
    }
  }

  predicate HasPending(s: State) {
    s.published != NoToken && s.published != s.consumed
  }

  /** No silent loss: in every run each token published has been taken, or was
      reported replaced by the next publish, or is still pending. */
  lemma NothingIsLost(width: nat, junk: Event, actions: seq<Action>, g: nat)
    requires |junk| == width
    requires 0 < g <= |Run(width, Initial(junk), actions).log|
    ensures var s := Run(width, Initial(junk), actions);
            || WasTaken(s.taken, TokenAt(s.log, g))
            || (g < |s.log| && s.log[g].replaced)
            || (g == |s.log| && TokenAt(s.log, g) == s.published && HasPending(s))
  {
    InitialKeeps(width, junk);
    RunKeeps(width, Initial(junk), actions);
    var s := Run(width, Initial(junk), actions);
    if g == |s.log| && !HasPending(s) {
      assert s.taken[|s.taken| - 1].token == TokenAt(s.log, g);
    }
  }

  /** Once the reader's recheck has passed, no step of the producer touches the
      slot being copied. */
  lemma CopiedSlotIsNotWritten(width: nat, s: State, a: Action)
    requires Inv(width, s) && s.reader.Copying?
    ensures s.reader.token.slot < |Step(width, s, a).slots| == |s.slots|
    ensures Step(width, s, a).slots[s.reader.token.slot] == s.slots[s.reader.token.slot]
  {
  }

  /** publish never gives up for want of a slot. */
  lemma PublishFindsSlot(width: nat, s: State)
    requires Inv(width, s) && s.producer.LoadingReader?
    ensures Step(width, s, Produce).producer.Writing?
  {
    SlotIsAvailable(SlotIn(s.producer.previous), s.readerSlot);
  }

  /** The event taken is the latest at the reader's last check, and the reader
      tries again only because something newer was published. */
  lemma TakeIsLatest(width: nat, s: State)
    requires Inv(width, s)
    ensures s.reader.Confirming? && Step(width, s, Read).reader.Consuming? ==> s.reader.token == s.published
    ensures s.reader.Confirming? && Step(width, s, Read).reader.Loading? ==>
              Generation(s.reader.token) < Generation(s.published)
    ensures s.reader.Retracting? ==> Generation(s.reader.token) < Generation(s.published)
  {
    if s.reader.Confirming? && s.reader.token != s.published {
      assert Issued(s.log, s.reader.token) && s.published == LastToken(s.log);
    }
  }

  // ------------------------------------------------- what a report is worth

  /** Published once, and replaced since. */
  ghost predicate Replaced(s: State, token: Token) {
    Issued(s.log, token) && Generation(token) < Generation(s.published)
  }

  /** The reader has passed its last check and has yet to consume the token. */
  predicate IsConsuming(r: Reader, token: Token) {
    r.Consuming? && r.token == token
  }

  /** Replaced, not taken, and not about to be. */
  ghost predicate Missed(s: State, token: Token) {
    Replaced(s, token) && !WasTaken(s.taken, token) && !IsConsuming(s.reader, token)
  }

  lemma MissedByProducer(width: nat, s: State, token: Token)
    requires Inv(width, s) && Missed(s, token)
    ensures Missed(ProducerStep(s), token)
  {
    if s.producer.Writing? {
      IssuedStays(s.log, Publication(s.producer.selected, s.producer.event, s.producer.replaced), token);
    }
  }

  lemma MissedByTaking(taken: seq<Taken>, t: Taken, token: Token)
    requires !WasTaken(taken, token) && t.token != token
    ensures !WasTaken(taken + [t], token)
  {
  }

  /** Only a token that is still published passes the last check. */
  lemma MissedByReader(width: nat, s: State, token: Token)
    requires Inv(width, s) && Missed(s, token)
    ensures Missed(ReaderStep(s), token)
  {
    if s.reader.Consuming? {
      MissedByTaking(s.taken, Taken(s.reader.token, s.reader.copy), token);
    } else {
      assert ReaderStep(s).taken == s.taken;
    }
  }

  lemma {:induction false} MissedForever(width: nat, s: State, token: Token, actions: seq<Action>)
    requires Inv(width, s) && Missed(s, token)
    ensures Missed(Run(width, s, actions), token)
    decreases |actions|
  {
    if actions != [] {
      var a := actions[0];
      StepKeeps(width, s, a);
      if a.Produce? {
        MissedByProducer(width, s, token);
      } else if a.Read? {
        MissedByReader(width, s, token);
      }
      MissedForever(width, Step(width, s, a), token, actions[1..]);
    }
  }

  ghost predicate CanBeTaken(width: nat, s: State, token: Token) {
    exists actions: seq<Action> :: WasTaken(Run(width, s, actions).taken, token)
  }

  /** A token that has been replaced is taken in some continuation exactly if it
      already was, or the reader is between its last check and consuming it. */
  lemma ReplacedIsTakenIff(width: nat, s: State, token: Token)
    requires Inv(width, s) && Replaced(s, token)
    ensures CanBeTaken(width, s, token) <==> WasTaken(s.taken, token) || IsConsuming(s.reader, token)
  {
    if WasTaken(s.taken, token) {
      assert Run(width, s, []) == s;
    } else if IsConsuming(s.reader, token) {
      var last := Taken(token, s.reader.copy);
      assert Run(width, s, [Read]) == Run(width, ReaderStep(s), []) == ReaderStep(s);
      assert (s.taken + [last])[|s.taken|] == last;
    } else {
      forall actions: seq<Action> ensures !WasTaken(Run(width, s, actions).taken, token) {
        MissedForever(width, s, token, actions);
      }
    }
  }

  /** The reader waits, and publication `n` reports `replaced`, or will. */
  predicate Reports(s: State, n: nat, replaced: bool) {
    && s.reader.Waiting?
    && if |s.log| > n then s.log[n].replaced == replaced else
         && |s.log| == n
         && match s.producer
            case LoadingConsumed(_, previous) => replaced == (previous != NoToken && previous != s.consumed)
            case LoadingReader(_, _, r) => r == replaced
            case Writing(_, _, r, _) => r == replaced
            case _ => false
  }

  lemma ReportStands(width: nat, s: State, n: nat, replaced: bool, a: Action)
    requires Inv(width, s) && Reports(s, n, replaced) && a != Take
    ensures var s' := Step(width, s, a); Reports(s', n, replaced) && s'.taken == s.taken && s.log <= s'.log
  {
    if a.Produce? && s.producer.LoadingReader? {
      SlotIsAvailable(SlotIn(s.producer.previous), s.readerSlot);
    }
  }

  lemma {:induction false} ReportStandsInRun(width: nat, s: State, n: nat, replaced: bool, actions: seq<Action>)
    requires Inv(width, s) && Reports(s, n, replaced) && Take !in actions
    ensures var s' := Run(width, s, actions);
            Reports(s', n, replaced) && s'.taken == s.taken && s.log <= s'.log && Inv(width, s')
    decreases |actions|
  {
    if actions != [] {
      StepKeeps(width, s, actions[0]);
      ReportStands(width, s, n, replaced, actions[0]);
      ReportStandsInRun(width, Step(width, s, actions[0]), n, replaced, actions[1..]);
    }
  }

  /** The published token was taken exactly if it is the consumed one. */
  lemma PublishedIsTakenIff(log: seq<Publication>, taken: seq<Taken>, consumed: Token)
    requires TakenOk(log, taken, consumed) && log != []
    ensures WasTaken(taken, LastToken(log)) <==> consumed == LastToken(log)
  {
    forall i | 0 <= i < |taken| - 1 ensures taken[i].token != LastToken(log) {
      assert Generation(taken[i].token) < Generation(taken[|taken| - 1].token) <= |log|;
    }
  }

  /** If the reader is outside try_take while a publish runs from its load of the
      consumed token to its end, the report is exact: the token is reported
      replaced exactly if no continuation takes it. */
  lemma QuietReportIsExact(width: nat, s: State, actions: seq<Action>)
    requires Inv(width, s) && s.producer.LoadingConsumed? && s.published != NoToken
    requires s.reader.Waiting? && Take !in actions
    requires |Run(width, s, actions).log| > |s.log|
    ensures var s' := Run(width, s, actions);
            s'.log[|s.log|].replaced <==> !CanBeTaken(width, s', s.published)
  {
    var s', token := Run(width, s, actions), s.published;
    ReportStandsInRun(width, s, |s.log|, token != s.consumed, actions);
    PublishedIsTakenIff(s.log, s.taken, s.consumed);
    assert s'.log[..|s.log|] == s.log;
    assert Issued(s'.log, token) by {
      assert s'.log[|s.log| - 1] == s.log[|s.log| - 1];
    }
    ReplacedIsTakenIff(width, s', token);
  }

  // -------------------------------------------------------------- the answers

  /** What try_take returns with this step, if it ends with it. */
  function AnswerOf(width: nat, s: State, a: Action): Option<bool> {
    if a.Read? && !s.reader.Waiting? && Step(width, s, a).reader.Waiting?
    then Some(Step(width, s, a).taken != s.taken)
    else None
  }

  /** The reader is past a load at which nothing was pending. */
  predicate FoundNothing(s: State) {
    s.reader.Comparing? && s.reader.token == s.consumed
  }

  lemma FoundNothingStep(width: nat, s: State, a: Action)
    requires Inv(width, s)
    ensures FoundNothing(Step(width, s, a)) ==>
              if a.Read? then s.reader.Loading? && !HasPending(s) else FoundNothing(s)
    ensures AnswerOf(width, s, a) == Some(false) ==>
              a.Read? && (FoundNothing(s) || (s.reader.Loading? && !HasPending(s)))
  {
    if s.reader.Consuming? {
      assert |ReaderStep(s).taken| == |s.taken| + 1;
    }
  }

  /** try_take answers false only if, when it loaded the published token, there was
      none that had not been consumed: in every run, between that load and the
      answer the reader makes no other step but the comparison. */
  lemma {:induction false} FalseAnswerIsSound(width: nat, s: State, actions: seq<Action>, n: nat) returns (m: nat)
    requires Inv(width, s) && !FoundNothing(s) && n < |actions|
    requires AnswerOf(width, Run(width, s, actions[..n]), actions[n]) == Some(false)
    ensures m <= n && actions[m] == Read
    ensures var loading := Run(width, s, actions[..m]); loading.reader.Loading? && !HasPending(loading)
    ensures forall i :: m < i < n ==> actions[i] != Read
  {
    var s' := Run(width, s, actions[..n]);
    RunKeeps(width, s, actions[..n]);
    FoundNothingStep(width, s', actions[n]);
    if s'.reader.Loading? {
      m := n;
    } else {
      m := LastLoad(width, s, actions, n);
    }
  }

  lemma {:induction false} LastLoad(width: nat, s: State, actions: seq<Action>, n: nat) returns (m: nat)
    requires Inv(width, s) && !FoundNothing(s) && n <= |actions|
    requires FoundNothing(Run(width, s, actions[..n]))
    ensures m < n && actions[m] == Read
    ensures var loading := Run(width, s, actions[..m]); loading.reader.Loading? && !HasPending(loading)
    ensures forall i :: m < i < n ==> actions[i] != Read
  {
    var front := actions[..n];
    assert front != [];
    var before := Run(width, s, actions[..n - 1]);
    RunKeeps(width, s, actions[..n - 1]);
    RunSnoc(width, s, actions[..n - 1], actions[n - 1]);
    assert actions[..n] == actions[..n - 1] + [actions[n - 1]];
    FoundNothingStep(width, before, actions[n - 1]);
    if actions[n - 1].Read? {
      m := n - 1;
    } else {
      m := LastLoad(width, s, actions, n - 1);
    }
  }

  lemma {:induction false} RunSnoc(width: nat, s: State, actions: seq<Action>, a: Action)
    ensures Run(width, s, actions + [a]) == Step(width, Run(width, s, actions), a)
    decreases |actions|
  {
    if actions == [] {
      assert ([] + [a])[1..] == [];
    } else {
      RunSnoc(width, Step(width, s, actions[0]), actions[1..], a);
      assert (actions + [a])[1..] == actions[1..] + [a];
    }
  }

  // ----------------------------------------------------------------- progress

  /** How many steps of its own the reader still needs, if the producer rests. */
  function ReadsLeft(width: nat, s: State): nat {
    var round := width + 8;
    match s.reader
    case Waiting => 0
    case Loading => round
    case Comparing(token) => if token == s.published then round - 1 else round + round
    case Claiming(token) => if token == s.published then round - 2 else round + 3
    case Rechecking(token) => if token == s.published then round - 3 else round + 2
    case Retracting(_) => round + 1
    case Copying(token, copy) =>
      (if |copy| < width then width - |copy| else 0) + (if token == s.published then 4 else round + 4)
    case Clearing(token, _) => if token == s.published then 3 else round + 3
    case Confirming(token, _) => if token == s.published then 2 else round + 2
    case Consuming(_, _) => 1
  }

  /** The reader has decided not to look at what is published now. */
  predicate LooksAway(s: State) {
    s.reader.Waiting? || s.reader.Consuming? || (FoundNothing(s) && s.reader.token != s.published)
  }

  lemma ReadAdvances(width: nat, s: State)
    requires Inv(width, s) && !s.reader.Waiting?
    ensures ReadsLeft(width, Step(width, s, Read)) < ReadsLeft(width, s)
  {
  }

  lemma ReadLooks(width: nat, s: State)
    requires Inv(width, s) && !s.reader.Waiting?
    ensures var s' := Step(width, s, Read);
            && s'.published == s.published
            && (LooksAway(s') ==> LooksAway(s) || s'.consumed == s.published
                                  || (s'.reader.Consuming? && s'.reader.token == s.published))
            && (s.reader.Consuming? ==> s'.reader.Waiting? && s'.consumed == s.reader.token)
  {
  }

  function Times(a: Action, n: nat): seq<Action> {
    if n == 0 then [] else [a] + Times(a, n - 1)
  }

  lemma TimesCons(width: nat, s: State, a: Action, n: nat)
    ensures Run(width, s, Times(a, n + 1)) == Run(width, Step(width, s, a), Times(a, n))
  {
    assert Times(a, n + 1)[1..] == Times(a, n);
  }

  /** From any reachable state a take that runs alone ends; and if it has not
      looked away before, then with everything consumed that is published. */
  lemma {:induction false} TakeEndsAlone(width: nat, s: State) returns (n: nat)
    requires Inv(width, s)
    ensures var s' := Run(width, s, Times(Read, n));
            && s'.reader.Waiting?
            && (!LooksAway(s) || (s.reader.Consuming? && s.reader.token == s.published) ==> !HasPending(s'))
    decreases ReadsLeft(width, s)
  {
    if s.reader.Waiting? {
      n := 0;
    } else {
      var s' := Step(width, s, Read);
      ReadAdvances(width, s);
      ReadLooks(width, s);
      StepKeeps(width, s, Read);
      var m := TakeEndsAlone(width, s');
      n := m + 1;
      TimesCons(width, s, Read, m);
      if s'.reader.Waiting? {
        StaysWaiting(width, s', m);
      }
    }
  }

  lemma {:induction false} StaysWaiting(width: nat, s: State, n: nat)
    requires s.reader.Waiting?
    ensures Run(width, s, Times(Read, n)) == s
  {
    if n > 0 {
      TimesCons(width, s, Read, n - 1);
      StaysWaiting(width, s, n - 1);
    }
  }

  function WritesLeft(width: nat, s: State): nat {
    match s.producer
    case Resting => 0
    case LoadingPublished(_) => width + 4
    case LoadingConsumed(_, _) => width + 3
    case LoadingReader(_, _, _) => width + 2
    case Writing(_, _, _, i) => if i < width then width - i + 1 else 1
  }

  lemma PublishAdvances(width: nat, s: State)
    requires Inv(width, s) && !s.producer.Resting?
    ensures var s' := Step(width, s, Produce);
            && WritesLeft(width, s') < WritesLeft(width, s)
            && if s'.producer.Resting? then |s'.log| == |s.log| + 1 && s'.log[|s.log|].event == s.producer.event
               else s'.log == s.log && s'.producer.event == s.producer.event
  {
    if s.producer.LoadingReader? {
      SlotIsAvailable(SlotIn(s.producer.previous), s.readerSlot);
    }
  }

  /** From any reachable state a publish that is under way and runs alone ends by
      publishing its event. */
  lemma {:induction false} PublishEndsAlone(width: nat, s: State) returns (n: nat)
    requires Inv(width, s) && !s.producer.Resting?
    ensures var s' := Run(width, s, Times(Produce, n));
            && s'.producer.Resting? && |s'.log| == |s.log| + 1
            && s'.log[|s.log|].event == s.producer.event && s'.published == LastToken(s'.log)
    decreases WritesLeft(width, s)
  {
    var s' := Step(width, s, Produce);
    PublishAdvances(width, s);
    StepKeeps(width, s, Produce);
    if s'.producer.Resting? {
      n := 1;
      TimesCons(width, s, Produce, 0);
    } else {
      var m := PublishEndsAlone(width, s');
      n := m + 1;
      TimesCons(width, s, Produce, m);
    }
  }

  lemma FirstStep(width: nat, s: State, a: Action, rest: seq<Action>)
    ensures Run(width, s, [a] + rest) == Run(width, Step(width, s, a), rest)
  {
    assert ([a] + rest)[1..] == rest;
  }

  /** A publish that runs alone from the start publishes its event. */
  lemma PublishIsDone(width: nat, s: State, e: Event) returns (n: nat)
    requires Inv(width, s) && s.producer.Resting? && |e| == width
    ensures var s' := Run(width, s, [Publish(e)] + Times(Produce, n));
            && s'.producer.Resting? && |s'.log| == |s.log| + 1
            && s'.log[|s.log|].event == e && s'.published == LastToken(s'.log)
  {
    StepKeeps(width, s, Publish(e));
    n := PublishEndsAlone(width, Step(width, s, Publish(e)));
    FirstStep(width, s, Publish(e), Times(Produce, n));
  }

  /** A take that runs alone from the start leaves nothing pending. */
  lemma TakeIsDone(width: nat, s: State) returns (n: nat)
    requires Inv(width, s) && s.reader.Waiting?
    ensures var s' := Run(width, s, [Take] + Times(Read, n)); s'.reader.Waiting? && !HasPending(s')
  {
    StepKeeps(width, s, Take);
    n := TakeEndsAlone(width, Step(width, s, Take));
    FirstStep(width, s, Take, Times(Read, n));
  }

  // ------------------------------------------- reported replaced and yet taken

  lemma RunCons(s: State, a: Action, rest: seq<Action>)
    ensures Run(1, s, [a] + rest) == Run(1, Step(1, s, a), rest)
  {
    assert ([a] + rest)[1..] == rest;
  }

  const FIRST: Token := Token(1, 0)

  const PUBLISHED_ONE: State :=
    State([[7], [0], [0]], 1, FIRST, NoToken, NO_SLOT, Resting, Waiting, [Publication(0, [7], false)], [])

  const CONFIRMED_ONE: State := PUBLISHED_ONE.(reader := Consuming(FIRST, [7]))

  lemma PublishSteps(s: State, e: Event, rest: seq<Action>) returns (actions: seq<Action>, s': State)
    requires s.producer.Resting? && |e| == 1
    ensures var loaded := Step(1, Step(1, Step(1, Step(1, s, Publish(e)), Produce), Produce), Produce);
            s' == Step(1, Step(1, loaded, Produce), Produce)
    ensures Run(1, s, actions) == Run(1, s', rest)
  {
    var s1 := Step(1, s, Publish(e));
    var s2 := Step(1, s1, Produce);
    var s3 := Step(1, s2, Produce);
    var s4 := Step(1, s3, Produce);
    var s5 := Step(1, s4, Produce);
    s' := Step(1, s5, Produce);
    var go := [Produce];
    RunCons(s5, Produce, rest);
    RunCons(s4, Produce, go + rest);
    RunCons(s3, Produce, go + (go + rest));
    RunCons(s2, Produce, go + (go + (go + rest)));
    RunCons(s1, Produce, go + (go + (go + (go + rest))));
    RunCons(s, Publish(e), go + (go + (go + (go + (go + rest)))));
    actions := [Publish(e)] + (go + (go + (go + (go + (go + rest)))));
  }

  const CLAIMED_ONE: State := PUBLISHED_ONE.(readerSlot := 0, reader := Copying(FIRST, []))

  lemma ClaimSteps(rest: seq<Action>) returns (actions: seq<Action>)
    ensures Run(1, PUBLISHED_ONE, actions) == Run(1, CLAIMED_ONE, rest)
  {
    var s, go := PUBLISHED_ONE, [Read];
    RunCons(s.(readerSlot := 0, reader := Rechecking(FIRST)), Read, rest);
    RunCons(s.(reader := Claiming(FIRST)), Read, go + rest);
    RunCons(s.(reader := Comparing(FIRST)), Read, go + (go + rest));
    RunCons(s.(reader := Loading), Read, go + (go + (go + rest)));
    RunCons(s, Take, go + (go + (go + (go + rest))));
    actions := [Take] + (go + (go + (go + (go + rest))));
  }

  lemma CopySteps(rest: seq<Action>) returns (actions: seq<Action>)
    ensures Run(1, CLAIMED_ONE, actions) == Run(1, CONFIRMED_ONE, rest)
  {
    var s, go := PUBLISHED_ONE, [Read];
    RunCons(s.(reader := Confirming(FIRST, [7])), Read, rest);
    RunCons(s.(readerSlot := 0, reader := Clearing(FIRST, [7])), Read, go + rest);
    RunCons(s.(readerSlot := 0, reader := Copying(FIRST, [7])), Read, go + (go + rest));
    RunCons(CLAIMED_ONE, Read, go + (go + (go + rest)));
    assert CLAIMED_ONE.reader.copy + [7] == [7];
    actions := go + (go + (go + (go + rest)));
  }

  lemma FirstPublish(rest: seq<Action>) returns (actions: seq<Action>)
    ensures Run(1, Initial([0]), actions) == Run(1, PUBLISHED_ONE, rest)
  {
    var s': State;
    actions, s' := PublishSteps(Initial([0]), [7], rest);
    assert [0][0 := 7] == [7];
    assert s' == PUBLISHED_ONE;
  }

  lemma LateConsume() returns (actions: seq<Action>)
    ensures var s := Run(1, CONFIRMED_ONE, actions);
            |s.log| == 2 && s.log[1].replaced && s.taken == [Taken(FIRST, [7])]
  {
    var s': State;
    actions, s' := PublishSteps(CONFIRMED_ONE, [8], [Read] + []);
    RunCons(s', Read, []);
    assert [0][0 := 8] == [8];
    assert s' == State([[7], [8], [0]], 2, Token(2, 1), NoToken, NO_SLOT, Resting, Consuming(FIRST, [7]),
                       [Publication(0, [7], false), Publication(1, [8], true)], []);
  }

  /** The other case does arise: a token is reported replaced while the reader
      is about to consume it, and is taken all the same. */
  lemma ReportedAndTaken()
    ensures exists actions: seq<Action> ::
              var s := Run(1, Initial([0]), actions);
              |s.log| == 2 && s.log[1].replaced && s.taken == [Taken(FIRST, [7])]
  {
    var late := LateConsume();
    var copying := CopySteps(late);
    var claiming := ClaimSteps(copying);
    var all := FirstPublish(claiming);
    assert Run(1, Initial([0]), all) == Run(1, CONFIRMED_ONE, late);
  }
}
