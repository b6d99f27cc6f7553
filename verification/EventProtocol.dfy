/** Persist-then-broadcast with a dead-letter queue, as the atomic steps between two awaits. */
module EventProtocol {
  import opened Common

  const PERSIST_MAX_ATTEMPTS := 3
  const DEAD_LETTER_MAX_RETRIES := 10

  datatype Event = Event(isDelta: bool, session: string)

  /** Streaming deltas and events without a job are broadcast only. */
  predicate Durable(e: Event) {
    !e.isDelta && e.session != ""
  }

  /** What one append try meets: a commit, a locked database, another operational error, or any other exception. */
  datatype Outcome = Committed | Locked | Broken | Crashed

  /** What the retry loop makes of it. */
  datatype Verdict = Saved | TryAgain | GaveUp | Escaped

  /** One pass of the inner retry loop, after `tries` earlier passes. */
  function Judge(tries: nat, o: Outcome): Verdict {
    match o
    case Committed => Saved
    case Locked => if tries == PERSIST_MAX_ATTEMPTS - 1 then GaveUp else TryAgain
    case Broken => GaveUp
    case Crashed => Escaped
  }

  /** Where the subscriber stands for one published event. */
  datatype Phase = Persisting(passes: nat) | Announcing(cursor: Option<nat>) | Done | Aborted

  /** `tries` and `failed` record the append tries made and the retry loops that gave up on this event. */
  datatype Publication = Publication(event: Event, phase: Phase, tries: nat, failed: nat)

  datatype Item = Item(pub: nat, attempt: nat)
  datatype Worker = Idle | Retrying(item: Item, passes: nat) | Stopped
  datatype Message = Message(pub: nat, cursor: Option<nat>)

  /** Publications are named by the order in which they arrive; a row's cursor is its position in `stored`, from 1. */
  datatype State = State(pubs: seq<Publication>, queue: seq<Item>, worker: Worker,
                         stored: seq<nat>, sent: seq<Message>, lost: seq<nat>, aborted: seq<nat>)

  datatype Action =
    | Arrive(event: Event)
    | FirstTry(pub: nat, outcome: Outcome)
    | Broadcast(pub: nat)
    | Take
    | RetryTry(outcome: Outcome)

  const INITIAL := State([], [], Idle, [], [], [], [])

  predicate Enabled(s: State, a: Action) {
    match a
    case Arrive(_) => true
    case FirstTry(p, _) => p < |s.pubs| && s.pubs[p].phase.Persisting?
    case Broadcast(p) => p < |s.pubs| && s.pubs[p].phase.Announcing?
    case Take => s.worker.Idle? && s.queue != []
    case RetryTry(_) => s.worker.Retrying? && s.worker.item.pub < |s.pubs|
  }

  /** One atomic step; a step that is not enabled changes nothing. */
  function Step(s: State, a: Action): State {
    if !Enabled(s, a) then s
    else match a
      case Arrive(e) =>
        s.(pubs := s.pubs + [Publication(e, if Durable(e) then Persisting(0) else Announcing(None), 0, 0)])
      case FirstTry(p, o) => FirstTryStep(s, p, Judge(s.pubs[p].phase.passes, o))
      case Broadcast(p) =>
        s.(pubs := s.pubs[p := s.pubs[p].(phase := Done)], sent := s.sent + [Message(p, s.pubs[p].phase.cursor)])
      case Take => s.(worker := Retrying(s.queue[0], 0), queue := s.queue[1..])
      case RetryTry(o) => RetryTryStep(s, Judge(s.worker.passes, o))
  }

  function FirstTryStep(s: State, p: nat, v: Verdict): State
    requires p < |s.pubs| && s.pubs[p].phase.Persisting?
  {
    var pub := s.pubs[p].(tries := s.pubs[p].tries + 1);
    match v
    case Saved => s.(pubs := s.pubs[p := pub.(phase := Announcing(Some(|s.stored| + 1)))], stored := s.stored + [p])
    case TryAgain => s.(pubs := s.pubs[p := pub.(phase := Persisting(pub.phase.passes + 1))])
    case GaveUp => s.(pubs := s.pubs[p := pub.(phase := Announcing(None), failed := pub.failed + 1)],
                      queue := s.queue + [Item(p, 0)])
    case Escaped => s.(pubs := s.pubs[p := pub.(phase := Aborted)], aborted := s.aborted + [p])
  }

  function RetryTryStep(s: State, v: Verdict): State
    requires s.worker.Retrying? && s.worker.item.pub < |s.pubs|
  {
    var Item(p, attempt) := s.worker.item;
    var pub := s.pubs[p].(tries := s.pubs[p].tries + 1);
    match v
    case Saved => s.(pubs := s.pubs[p := pub], stored := s.stored + [p], worker := Idle)
    case TryAgain => s.(pubs := s.pubs[p := pub], worker := s.worker.(passes := s.worker.passes + 1))
    case GaveUp =>
      var t := s.(pubs := s.pubs[p := pub.(failed := pub.failed + 1)], worker := Idle);
      if attempt + 1 < DEAD_LETTER_MAX_RETRIES then t.(queue := s.queue + [Item(p, attempt + 1)])
      else t.(lost := s.lost + [p])
    case Escaped => s.(pubs := s.pubs[p := pub], aborted := s.aborted + [p], worker := Stopped)
  }

  /** Any sequence of steps, that is any interleaving of publishers and the retry loop. */
  function Run(s: State, acts: seq<Action>): State
    decreases |acts|
  {
    if acts == [] then s else Run(Step(s, acts[0]), acts[1..])
  }

  // ---- Conservation ----

  /** How often a publication occurs in a list, by an arbitrary reading of the list's entries. */
  function Count<T>(s: seq<T>, p: nat, name: T -> nat): nat {
    if s == [] then 0 else Count(s[..|s| - 1], p, name) + (if name(s[|s| - 1]) == p then 1 else 0)
  }

  function InQueue(s: State, p: nat): nat { Count(s.queue, p, (i: Item) => i.pub) }
  function InSent(s: State, p: nat): nat { Count(s.sent, p, (m: Message) => m.pub) }
  function InStore(s: State, p: nat): nat { Count(s.stored, p, (x: nat) => x) }
  function InLost(s: State, p: nat): nat { Count(s.lost, p, (x: nat) => x) }
  function InAborted(s: State, p: nat): nat { Count(s.aborted, p, (x: nat) => x) }
  function InFlight(s: State, p: nat): nat { if s.worker.Retrying? && s.worker.item.pub == p then 1 else 0 }

  /** Everything that still holds or has disposed of a publication, with multiplicity. */
  function Places(s: State, p: nat): nat {
    InStore(s, p) + InQueue(s, p) + InFlight(s, p) + InLost(s, p) + InAborted(s, p)
  }

  /** A durable publication whose first persist has finished, one way or another. */
  predicate Settled(s: State, p: nat) {
    p < |s.pubs| && Durable(s.pubs[p].event) && !s.pubs[p].phase.Persisting?
  }

  ghost predicate Conserved(s: State) {
    forall p: nat :: Places(s, p) == if Settled(s, p) then 1 else 0
  }

  ghost predicate BroadcastOnce(s: State) {
    forall p: nat :: InSent(s, p) == if p < |s.pubs| && s.pubs[p].phase.Done? then 1 else 0
  }

  /** A cursor names the row that holds the event. */
  ghost predicate CursorNames(s: State, p: nat, cursor: Option<nat>) {
    && p < |s.pubs|
    && (cursor.Some? ==> Durable(s.pubs[p].event) && 1 <= cursor.value <= |s.stored| && s.stored[cursor.value - 1] == p)
    && (Durable(s.pubs[p].event) ==> (cursor.Some? <==> s.pubs[p].failed == 0))
  }

  ghost predicate CursorsRight(s: State) {
    && (forall p | 0 <= p < |s.pubs| && s.pubs[p].phase.Announcing? :: CursorNames(s, p, s.pubs[p].phase.cursor))
    && (forall i | 0 <= i < |s.sent| :: CursorNames(s, s.sent[i].pub, s.sent[i].cursor))
  }

  /** Append tries made so far, against retry loops that gave up: each loop has at most three passes. */
  ghost predicate WithinBudget(s: State, p: nat, passes: nat)
    requires p < |s.pubs|
  {
    s.pubs[p].failed <= s.pubs[p].tries <= PERSIST_MAX_ATTEMPTS * s.pubs[p].failed + passes
  }

  ghost predicate AttemptsBounded(s: State) {
    && (forall p | 0 <= p < |s.pubs| && s.pubs[p].phase.Persisting? ::
          Durable(s.pubs[p].event) && s.pubs[p].failed == 0
          && s.pubs[p].phase.passes < PERSIST_MAX_ATTEMPTS && WithinBudget(s, p, s.pubs[p].phase.passes))
    && (forall i | 0 <= i < |s.queue| ::
          s.queue[i].pub < |s.pubs| && s.queue[i].attempt < DEAD_LETTER_MAX_RETRIES
          && s.pubs[s.queue[i].pub].failed == s.queue[i].attempt + 1 && WithinBudget(s, s.queue[i].pub, 0))
    && (s.worker.Retrying? ==>
          s.worker.item.pub < |s.pubs| && s.worker.item.attempt < DEAD_LETTER_MAX_RETRIES
          && s.worker.passes < PERSIST_MAX_ATTEMPTS
          && s.pubs[s.worker.item.pub].failed == s.worker.item.attempt + 1
          && WithinBudget(s, s.worker.item.pub, s.worker.passes))
    && (forall i | 0 <= i < |s.lost| ::
          s.lost[i] < |s.pubs| && s.pubs[s.lost[i]].failed == DEAD_LETTER_MAX_RETRIES + 1
              && WithinBudget(s, s.lost[i], 0))
    && (forall i | 0 <= i < |s.stored| :: EndedInTime(s, s.stored[i]))
    && (forall i | 0 <= i < |s.aborted| :: EndedInTime(s, s.aborted[i]))
  }

  ghost predicate EndedInTime(s: State, p: nat) {
    p < |s.pubs| && s.pubs[p].failed <= DEAD_LETTER_MAX_RETRIES && WithinBudget(s, p, PERSIST_MAX_ATTEMPTS)
  }

  /** A broadcast-only publication never tries to persist. */
  ghost predicate BroadcastOnlyUntouched(s: State) {
    forall p | 0 <= p < |s.pubs| && !Durable(s.pubs[p].event) ::
      s.pubs[p].tries == s.pubs[p].failed == 0 && (s.pubs[p].phase.Done? || s.pubs[p].phase == Announcing(None))
  }

  ghost predicate Inv(s: State) {
    Conserved(s) && BroadcastOnce(s) && CursorsRight(s) && AttemptsBounded(s) && BroadcastOnlyUntouched(s)
  }
}
