/** Termination of the dead-letter queue, and the loops of the source as runs of protocol steps. */
module EventDrain {
  import opened Common
  import opened EventProtocol
  import opened EventSafety

  // ---- Draining ----

  predicate WorkerAction(a: Action) { a.Take? || a.RetryTry? }

  /** Every action is a step of the retry loop that is enabled when it happens. */
  predicate WorkerRun(s: State, acts: seq<Action>)
    decreases |acts|
  {
    acts == [] || (WorkerAction(acts[0]) && Enabled(s, acts[0]) && WorkerRun(Step(s, acts[0]), acts[1..]))
  }

  function Takes(acts: seq<Action>): nat {
    if acts == [] then 0 else (if acts[0].Take? then 1 else 0) + Takes(acts[1..])
  }

  predicate AttemptsBelowLimit(s: State) {
    (forall i | 0 <= i < |s.queue| :: s.queue[i].attempt < DEAD_LETTER_MAX_RETRIES)
    && (s.worker.Retrying? ==>
        s.worker.item.attempt < DEAD_LETTER_MAX_RETRIES && s.worker.passes < PERSIST_MAX_ATTEMPTS)
  }

  /** The dead-letter rounds that the queued items have left: the sum of (10 - attempt). */
  function QueuedRounds(q: seq<Item>): int {
    if q == [] then 0
    else QueuedRounds(q[..|q| - 1]) + DEAD_LETTER_MAX_RETRIES - q[|q| - 1].attempt
  }

  function RoundsLeft(s: State): int {
    QueuedRounds(s.queue) + if s.worker.Retrying? then DEAD_LETTER_MAX_RETRIES - 1 - s.worker.item.attempt else 0
  }

  function StepsLeft(s: State): int {
    (1 + PERSIST_MAX_ATTEMPTS) * RoundsLeft(s) + if s.worker.Retrying? then PERSIST_MAX_ATTEMPTS - s.worker.passes
        else 0
  }

  lemma {:induction false} RoundsAppend(q: seq<Item>, x: Item)
    ensures QueuedRounds(q + [x]) == QueuedRounds(q) + DEAD_LETTER_MAX_RETRIES - x.attempt
  {
    assert (q + [x])[..|q|] == q;
  }

  lemma {:induction false} RoundsPop(q: seq<Item>)
    requires q != []
    ensures QueuedRounds(q) == QueuedRounds(q[1..]) + DEAD_LETTER_MAX_RETRIES - q[0].attempt
  {
    if |q| > 1 {
      RoundsPop(q[..|q| - 1]);
      assert q[..|q| - 1][1..] == q[1..][..|q| - 2];
    }
  }

  lemma {:induction false} RoundsNonNegative(q: seq<Item>)
    requires forall i | 0 <= i < |q| :: q[i].attempt < DEAD_LETTER_MAX_RETRIES
    ensures QueuedRounds(q) >= |q|
  {
    if q != [] { RoundsNonNegative(q[..|q| - 1]); }
  }

  lemma WorkerStepSpends(s: State, a: Action)
    requires WorkerAction(a) && Enabled(s, a) && AttemptsBelowLimit(s)
    ensures AttemptsBelowLimit(Step(s, a))
    ensures StepsLeft(Step(s, a)) < StepsLeft(s)
    ensures RoundsLeft(Step(s, a)) <= RoundsLeft(s) - (if a.Take? then 1 else 0)
  {
    hide QueuedRounds;
    if a.Take? {
      RoundsPop(s.queue);
    } else if s.worker.item.attempt + 1 < DEAD_LETTER_MAX_RETRIES {
      RoundsAppend(s.queue, Item(s.worker.item.pub, s.worker.item.attempt + 1));
    }
  }

  lemma {:induction false} WorkerRunSpends(s: State, acts: seq<Action>)
    requires WorkerRun(s, acts) && AttemptsBelowLimit(s)
    ensures |acts| <= StepsLeft(s) && Takes(acts) <= RoundsLeft(s) && AttemptsBelowLimit(Run(s, acts))
    decreases |acts|
  {
    if acts == [] {
      RoundsNonNegative(s.queue);
    } else {
      WorkerStepSpends(s, acts[0]);
      WorkerRunSpends(Step(s, acts[0]), acts[1..]);
    }
  }

  /** Without new arrivals the retry loop takes no more items than the sum of (10 - attempt) over the queue,
      and once it can take no further step the queue is empty, unless an unexpected exception has stopped it. */
  lemma QueueDrains(s: State, acts: seq<Action>)
    requires Reachable(s) && s.worker.Idle? && WorkerRun(s, acts)
    ensures Takes(acts) <= QueuedRounds(s.queue)
    ensures |acts| <= (1 + PERSIST_MAX_ATTEMPTS) * QueuedRounds(s.queue)
    ensures (forall a | WorkerAction(a) :: !Enabled(Run(s, acts), a)) ==>
      Run(s, acts).worker.Stopped? || (Run(s, acts).queue == [] && Run(s, acts).worker.Idle?)
  {
    hide Run, Conserved, BroadcastOnce, CursorsRight, BroadcastOnlyUntouched, Reachable;
    ReachableInv(s);
    WorkerRunSpends(s, acts);
    var t := Run(s, acts);
    RunKeepsInv(s, acts);
    if forall a | WorkerAction(a) :: !Enabled(t, a) {
      assert !Enabled(t, Take) && !Enabled(t, RetryTry(Committed));
    }
  }

  // ---- First in, first out ----

  /** What a step puts into the dead-letter queue: an event whose retry loop gave up, with the next round to make. */
  function Entering(s: State, a: Action): seq<Item> {
    if !Enabled(s, a) then []
    else match a
      case FirstTry(p, o) => if Judge(s.pubs[p].phase.passes, o).GaveUp? then [Item(p, 0)] else []
      case RetryTry(o) =>
        var Item(p, attempt) := s.worker.item;
        if Judge(s.worker.passes, o).GaveUp? && attempt + 1 < DEAD_LETTER_MAX_RETRIES then [Item(p, attempt + 1)]
        else []
      case _ => []
  }

  /** What the retry loop holds in hand once it has taken an item. */
  function Taking(s: State, a: Action): seq<Item> {
    if a.Take? && Enabled(s, a) && Step(s, a).worker.Retrying? then [Step(s, a).worker.item] else []
  }

  /** The items that enter the queue during a run, and those taken from it, each in their order. */
  function Entered(s: State, acts: seq<Action>): seq<Item>
    decreases |acts|
  {
    if acts == [] then [] else Entering(s, acts[0]) + Entered(Step(s, acts[0]), acts[1..])
  }

  function Taken(s: State, acts: seq<Action>): seq<Item>
    decreases |acts|
  {
    if acts == [] then [] else Taking(s, acts[0]) + Taken(Step(s, acts[0]), acts[1..])
  }

  lemma StepIsFifo(s: State, a: Action)
    ensures Taking(s, a) + Step(s, a).queue == s.queue + Entering(s, a)
    ensures Taking(s, a) == [] || Entering(s, a) == []
  {
  }

  /** Over any run, whatever was queued and whatever enters comes out in that order: the n-th item taken is the n-th of
      the items queued at the start followed by the items that entered. */
  lemma {:induction false} QueueIsFifo(s: State, acts: seq<Action>)
    ensures Taken(s, acts) + Run(s, acts).queue == s.queue + Entered(s, acts)
    decreases |acts|
  {
    if acts != [] {
      hide Step, Entering, Taking;
      var t, rest := Step(s, acts[0]), acts[1..];
      StepIsFifo(s, acts[0]);
      QueueIsFifo(t, rest);
      Splice(Taking(s, acts[0]), Taken(t, rest), Run(t, rest).queue, t.queue, Entered(t, rest),
          s.queue, Entering(s, acts[0]));
    }
  }

  lemma Splice<T>(first: seq<T>, then': seq<T>, end: seq<T>, mid: seq<T>, late: seq<T>, start: seq<T>, early: seq<T>)
    requires first + mid == start + early && then' + end == mid + late
    ensures (first + then') + end == start + (early + late)
  {
    assert (first + then') + end == first + (then' + end);
    assert first + (mid + late) == (first + mid) + late;
    assert (start + early) + late == start + (early + late);
  }

  /** An item that enters is taken only after every item queued ahead of it, whatever happens in between. */
  lemma QueuedAheadGoesFirst(s: State, a: Action, acts: seq<Action>, x: Item)
    requires Entering(s, a) == [x]
    ensures var taken, ahead := Taken(Step(s, a), acts), s.queue;
      if |taken| <= |ahead| then taken == ahead[..|taken|]
      else taken[..|ahead|] == ahead && taken[|ahead|] == x
  {
    hide Step, Entering, Taken, Run;
    var t, ahead := Step(s, a), s.queue;
    StepIsFifo(s, a);
    QueueIsFifo(t, acts);
    TakenInOrder(Taken(t, acts), Run(t, acts).queue, ahead, x, Entered(t, acts));
  }

  lemma TakenInOrder<T>(taken: seq<T>, left: seq<T>, ahead: seq<T>, x: T, later: seq<T>)
    requires taken + left == (ahead + [x]) + later
    ensures if |taken| <= |ahead| then taken == ahead[..|taken|]
            else taken[..|ahead|] == ahead && taken[|ahead|] == x
  {
    assert forall i | 0 <= i < |taken| :: taken[i] == (taken + left)[i];
  }

  // ---- The inner retry loop ----

  /** `_persist_event_with_retry` as its callers see it. */
  datatype PersistResult = Persisted | OperationalError | OtherError | ReturnedNone

  /** How the loop ends when it meets these outcomes, one per pass. */
  predicate EndsWith(maxAttempts: int, outcomes: seq<Outcome>, used: nat, r: PersistResult)
    requires used <= |outcomes|
  {
    if maxAttempts <= 0 then used == 0 && r.ReturnedNone?
    else
      && 1 <= used <= maxAttempts
      && (forall i | 0 <= i < used - 1 :: outcomes[i] == Locked)
      && match outcomes[used - 1]
         case Committed => r.Persisted?
         case Locked => used == maxAttempts && r.OperationalError?
         case Broken => r.OperationalError?
         case Crashed => r.OtherError?
  }

  /** The counted loop: it returns nothing exactly when it is allowed no attempt at all. */
  method PersistWithRetry(maxAttempts: int, outcomes: seq<Outcome>) returns (r: PersistResult, used: nat)
    requires |outcomes| >= maxAttempts
    ensures used <= |outcomes| && EndsWith(maxAttempts, outcomes, used, r)
    ensures r.ReturnedNone? <==> maxAttempts <= 0
  {
    var attempt := 0;
    while attempt < maxAttempts
      invariant 0 <= attempt && (attempt < maxAttempts || (maxAttempts <= 0 && attempt == 0))
      invariant forall i | 0 <= i < attempt :: outcomes[i] == Locked
    {
      match outcomes[attempt] {
        case Committed => return Persisted, attempt + 1;
        case Locked =>
          if attempt == maxAttempts - 1 { return OperationalError, attempt + 1; }
        case Broken => return OperationalError, attempt + 1;
        case Crashed => return OtherError, attempt + 1;
      }
      attempt := attempt + 1;
    }
    return ReturnedNone, 0;
  }

  // ---- The callers of the loop, as runs of protocol steps ----

  function FirstTries(p: nat, outcomes: seq<Outcome>): (acts: seq<Action>)
    ensures |acts| == |outcomes| && forall i | 0 <= i < |acts| :: acts[i] == FirstTry(p, outcomes[i])
  {
    if outcomes == [] then [] else [FirstTry(p, outcomes[0])] + FirstTries(p, outcomes[1..])
  }

  function RetryTries(outcomes: seq<Outcome>): (acts: seq<Action>)
    ensures |acts| == |outcomes| && forall i | 0 <= i < |acts| :: acts[i] == RetryTry(outcomes[i])
  {
    if outcomes == [] then [] else [RetryTry(outcomes[0])] + RetryTries(outcomes[1..])
  }

  /** What the loop's result amounts to as the verdict of its last pass. */
  function ResultVerdict(r: PersistResult): Verdict
    requires !r.ReturnedNone?
  {
    match r
    case Persisted => Saved
    case OperationalError => GaveUp
    case OtherError => Escaped
  }

  ghost predicate SamePlaces(a: State, b: State) {
    a.queue == b.queue && a.worker == b.worker && a.stored == b.stored && a.sent == b.sent && a.lost == b.lost
        && a.aborted == b.aborted
  }

  /** The tries of one uninterrupted dead-letter round have the effect of the round's verdict alone. */
  lemma {:induction false} RoundIsItsVerdict(s: State, outcomes: seq<Outcome>, r: PersistResult)
    requires s.worker.Retrying? && s.worker.item.pub < |s.pubs| && s.worker.passes < PERSIST_MAX_ATTEMPTS
    requires EndsWith(PERSIST_MAX_ATTEMPTS - s.worker.passes, outcomes, |outcomes|, r)
    ensures SamePlaces(Run(s, RetryTries(outcomes)), RetryTryStep(s, ResultVerdict(r)))
    ensures |Run(s, RetryTries(outcomes)).pubs| == |s.pubs|
    decreases |outcomes|
  {
    var t := Step(s, RetryTry(outcomes[0]));
    assert RetryTries(outcomes)[0] == RetryTry(outcomes[0]);
    assert RetryTries(outcomes)[1..] == RetryTries(outcomes[1..]);
    if |outcomes| == 1 {
      assert Run(s, RetryTries(outcomes)) == t;
    } else {
      assert forall i | 0 <= i < |outcomes| - 2 :: outcomes[1..][i] == outcomes[i + 1];
      RoundIsItsVerdict(t, outcomes[1..], r);
    }
  }

  lemma {:induction false} PersistIsItsVerdict(s: State, p: nat, outcomes: seq<Outcome>, r: PersistResult)
    requires p < |s.pubs| && s.pubs[p].phase.Persisting? && s.pubs[p].phase.passes < PERSIST_MAX_ATTEMPTS
    requires EndsWith(PERSIST_MAX_ATTEMPTS - s.pubs[p].phase.passes, outcomes, |outcomes|, r)
    ensures var t := Run(s, FirstTries(p, outcomes));
      && SamePlaces(t, FirstTryStep(s, p, ResultVerdict(r)))
      && |t.pubs| == |s.pubs| && t.pubs[p].phase == FirstTryStep(s, p, ResultVerdict(r)).pubs[p].phase
    decreases |outcomes|
  {
    var t := Step(s, FirstTry(p, outcomes[0]));
    assert FirstTries(p, outcomes)[1..] == FirstTries(p, outcomes[1..]);
    if |outcomes| == 1 {
      assert Run(s, FirstTries(p, outcomes)) == t;
    } else {
      assert forall i | 0 <= i < |outcomes| - 2 :: outcomes[1..][i] == outcomes[i + 1];
      PersistIsItsVerdict(t, p, outcomes[1..], r);
    }
  }

  // ---- What the append tries of one retry loop come to ----

  /** Within the tries allowed, the first one not met by a locked database meets `o`. */
  ghost predicate Meets(outcomes: seq<Outcome>, o: Outcome)
    requires |outcomes| >= PERSIST_MAX_ATTEMPTS
  {
    exists i :: 0 <= i < PERSIST_MAX_ATTEMPTS && MeetsAt(outcomes, o, i)
  }

  ghost predicate MeetsAt(outcomes: seq<Outcome>, o: Outcome, i: nat)
    requires i < |outcomes|
  {
    o != Locked && outcomes[i] == o && forall j | 0 <= j < i :: outcomes[j] == Locked
  }

  /** An operational error, or a database still locked at the last try. */
  ghost predicate Fails(outcomes: seq<Outcome>)
    requires |outcomes| >= PERSIST_MAX_ATTEMPTS
  {
    Meets(outcomes, Broken) || forall i | 0 <= i < PERSIST_MAX_ATTEMPTS :: outcomes[i] == Locked
  }

  /** The tries made: up to the first one not met by a locked database, or all that are allowed. */
  ghost predicate TriesMade(outcomes: seq<Outcome>, used: nat)
    requires |outcomes| >= PERSIST_MAX_ATTEMPTS
  {
    && 1 <= used <= PERSIST_MAX_ATTEMPTS
    && (forall i | 0 <= i < used - 1 :: outcomes[i] == Locked)
    && (used < PERSIST_MAX_ATTEMPTS ==> outcomes[used - 1] != Locked)
  }

  lemma ResultMeans(outcomes: seq<Outcome>, used: nat, r: PersistResult)
    requires used <= |outcomes| && |outcomes| >= PERSIST_MAX_ATTEMPTS
    requires EndsWith(PERSIST_MAX_ATTEMPTS, outcomes, used, r)
    ensures TriesMade(outcomes, used)
    ensures Meets(outcomes, Committed) <==> r.Persisted?
    ensures Meets(outcomes, Crashed) <==> r.OtherError?
    ensures Fails(outcomes) <==> r.OperationalError?
  {
    var o := outcomes[used - 1];
    assert o != Locked ==> MeetsAt(outcomes, o, used - 1);
    forall i, p | 0 <= i < PERSIST_MAX_ATTEMPTS && MeetsAt(outcomes, p, i) ensures p == o {
      MeetsOnce(outcomes, used - 1, p, i);
    }
  }

  lemma MeetsOnce(outcomes: seq<Outcome>, last: nat, p: Outcome, i: nat)
    requires last < |outcomes| && i < |outcomes| && MeetsAt(outcomes, p, i)
    requires forall j | 0 <= j < last :: outcomes[j] == Locked
    requires i <= last || outcomes[last] != Locked
    ensures i == last
  {
  }

  /** The queue and the sinks that the subscriber and the retry loop share. */
  class EventPipeline {
    var deadLetter: seq<Item>
    var stored: seq<nat>
    var sent: seq<Message>
    var lost: seq<nat>
    var aborted: seq<nat>

    ghost predicate Represents(s: State)
      reads this
    {
      deadLetter == s.queue && stored == s.stored && sent == s.sent && lost == s.lost && aborted == s.aborted
    }

    ghost function Sinks(): (seq<Item>, seq<nat>, seq<Message>, seq<nat>, seq<nat>)
      reads this
    {
      (deadLetter, stored, sent, lost, aborted)
    }

    constructor ()
      ensures Represents(INITIAL)
    {
      deadLetter, stored, sent, lost, aborted := [], [], [], [], [];
    }

    method Broadcast(p: nat, cursor: Option<nat>)
      modifies this`sent
      ensures sent == old(sent) + [Message(p, cursor)]
    {
      sent := sent + [Message(p, cursor)];
    }

    /** `_persist_and_broadcast` for publication `p`, run without interruption from its arrival. */
    method PersistAndBroadcast(p: nat, event: Event, outcomes: seq<Outcome>, ghost s: State) returns (used: nat)
      requires p == |s.pubs| && Represents(s) && |outcomes| >= PERSIST_MAX_ATTEMPTS
      modifies this
      ensures used <= |outcomes|
      ensures Represents(Run(Run(Step(s, Arrive(event)), FirstTries(p, outcomes[..used])),
          [EventProtocol.Broadcast(p)]))
      ensures if event.isDelta || event.session == "" then
          && used == 0
          && Sinks() == (old(deadLetter), old(stored), old(sent) + [Message(p, None)], old(lost), old(aborted))
        else
          && TriesMade(outcomes, used)
          && (Meets(outcomes, Committed) ==>
                Sinks() == (old(deadLetter), old(stored) + [p], old(sent) + [Message(p, Some(|old(stored)| + 1))],
                            old(lost), old(aborted)))
          && (Fails(outcomes) ==>
                Sinks() == (old(deadLetter) + [Item(p, 0)], old(stored), old(sent) + [Message(p, None)],
                            old(lost), old(aborted)))
          && (Meets(outcomes, Crashed) ==>
                Sinks() == (old(deadLetter), old(stored), old(sent), old(lost), old(aborted) + [p]))
    {
      ghost var s1 := Step(s, Arrive(event));
      if event.isDelta || event.session == "" {
        Broadcast(p, None);
        used := 0;
        assert FirstTries(p, outcomes[..0]) == [];
        BroadcastRun(s1, p);
        return;
      }
      var r;
      r, used := PersistWithRetry(PERSIST_MAX_ATTEMPTS, outcomes);
      ResultMeans(outcomes, used, r);
      PersistIsItsVerdict(s1, p, outcomes[..used], r);
      ghost var s2 := Run(s1, FirstTries(p, outcomes[..used]));
      BroadcastRun(s2, p);
      match r {
        case Persisted =>
          stored := stored + [p];
          Broadcast(p, Some(|stored|));
        case OperationalError =>
          deadLetter := deadLetter + [Item(p, 0)];
          Broadcast(p, None);
        case OtherError =>
          aborted := aborted + [p];
        case ReturnedNone =>
      }
    }

    /** One pass of the dead-letter loop over the item at the head of the queue, run without interruption. */
    method RetryRound(outcomes: seq<Outcome>, ghost s: State) returns (used: nat)
      requires Represents(s) && deadLetter != [] && s.worker.Idle? && |outcomes| >= PERSIST_MAX_ATTEMPTS
      requires deadLetter[0].pub < |s.pubs|
      modifies this
      ensures TriesMade(outcomes, used)
      ensures Represents(Run(Step(s, Take), RetryTries(outcomes[..used])))
      ensures !Run(Step(s, Take), RetryTries(outcomes[..used])).worker.Retrying?
      ensures Run(Step(s, Take), RetryTries(outcomes[..used])).worker.Stopped? <==> Meets(outcomes, Crashed)
      ensures var Item(p, attempt) := old(deadLetter)[0];
        var rest := old(deadLetter)[1..];
        && (Meets(outcomes, Committed) ==>
              Sinks() == (rest, old(stored) + [p], old(sent), old(lost), old(aborted)))
        && (Fails(outcomes) && attempt + 1 < DEAD_LETTER_MAX_RETRIES ==>
              Sinks() == (rest + [Item(p, attempt + 1)], old(stored), old(sent), old(lost), old(aborted)))
        && (Fails(outcomes) && attempt + 1 >= DEAD_LETTER_MAX_RETRIES ==>
              Sinks() == (rest, old(stored), old(sent), old(lost) + [p], old(aborted)))
        && (Meets(outcomes, Crashed) ==>
              Sinks() == (rest, old(stored), old(sent), old(lost), old(aborted) + [p]))
    {
      var Item(event, attempt) := deadLetter[0];
      deadLetter := deadLetter[1..];
      var r;
      r, used := PersistWithRetry(PERSIST_MAX_ATTEMPTS, outcomes);
      ResultMeans(outcomes, used, r);
      RoundIsItsVerdict(Step(s, Take), outcomes[..used], r);
      match r {
        case Persisted =>
          stored := stored + [event];
        case OperationalError =>
          var nextAttempt := attempt + 1;
          if nextAttempt < DEAD_LETTER_MAX_RETRIES {
            deadLetter := deadLetter + [Item(event, nextAttempt)];
          } else {
            lost := lost + [event];
          }
        case OtherError =>
          aborted := aborted + [event];
        case ReturnedNone =>
      }
    }
  }

  lemma BroadcastRun(s: State, p: nat)
    ensures Run(s, [EventProtocol.Broadcast(p)]) == Step(s, EventProtocol.Broadcast(p))
  {
    assert [EventProtocol.Broadcast(p)][1..] == [];
  }
}
