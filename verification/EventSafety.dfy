/** Safety of the event protocol over every interleaving. */
module EventSafety {
  import opened Common
  import opened EventProtocol

  lemma CountAppend<T>(s: seq<T>, x: T, p: nat, name: T -> nat)
    ensures Count(s + [x], p, name) == Count(s, p, name) + (if name(x) == p then 1 else 0)
  {
    assert (s + [x])[..|s|] == s;
  }

  lemma {:induction false} CountPop<T>(s: seq<T>, p: nat, name: T -> nat)
    requires s != []
    ensures Count(s, p, name) == Count(s[1..], p, name) + (if name(s[0]) == p then 1 else 0)
  {
    if |s| > 1 {
      CountPop(s[..|s| - 1], p, name);
      assert s[..|s| - 1][1..] == s[1..][..|s| - 2];
    }
  }

  lemma {:induction false} CountsMember<T>(s: seq<T>, i: nat, name: T -> nat)
    requires i < |s|
    ensures Count(s, name(s[i]), name) >= 1
  {
    if i < |s| - 1 { CountsMember(s[..|s| - 1], i, name); }
  }

  /** How a step moves publications from place to place: the only event that enters is one whose first persist ends. */
  lemma PlacesAfter(s: State, a: Action, p: nat)
    requires Enabled(s, a)
    ensures Places(Step(s, a), p) == Places(s, p) + (if EndsFirstPersist(s, a, p) then 1 else 0)
  {
    match a
    case Arrive(_) =>
    case Broadcast(_) =>
    case Take => CountPop(s.queue, p, (i: Item) => i.pub);
    case FirstTry(q, o) => FirstTryMoves(s, q, Judge(s.pubs[q].phase.passes, o), p);
    case RetryTry(o) => RetryTryMoves(s, Judge(s.worker.passes, o), p);
  }

  predicate EndsFirstPersist(s: State, a: Action, p: nat) {
    a.FirstTry? && a.pub == p && p < |s.pubs| && s.pubs[p].phase.Persisting?
    && !Judge(s.pubs[p].phase.passes, a.outcome).TryAgain?
  }

  lemma FirstTryMoves(s: State, q: nat, v: Verdict, p: nat)
    requires q < |s.pubs| && s.pubs[q].phase.Persisting?
    ensures Places(FirstTryStep(s, q, v), p) == Places(s, p) + (if q == p && !v.TryAgain? then 1 else 0)
  {
    match v
    case Saved => CountAppend(s.stored, q, p, (x: nat) => x);
    case TryAgain =>
    case GaveUp => CountAppend(s.queue, Item(q, 0), p, (i: Item) => i.pub);
    case Escaped => CountAppend(s.aborted, q, p, (x: nat) => x);
  }

  lemma RetryTryMoves(s: State, v: Verdict, p: nat)
    requires s.worker.Retrying? && s.worker.item.pub < |s.pubs|
    ensures Places(RetryTryStep(s, v), p) == Places(s, p)
  {
    var Item(q, attempt) := s.worker.item;
    match v
    case Saved => CountAppend(s.stored, q, p, (x: nat) => x);
    case TryAgain =>
    case GaveUp =>
      CountAppend(s.queue, Item(q, attempt + 1), p, (i: Item) => i.pub);
      CountAppend(s.lost, q, p, (x: nat) => x);
    case Escaped => CountAppend(s.aborted, q, p, (x: nat) => x);
  }

  lemma SettledAfter(s: State, a: Action, p: nat)
    requires Enabled(s, a) && AttemptsBounded(s)
    ensures Settled(Step(s, a), p) <==> Settled(s, p) || EndsFirstPersist(s, a, p)
    ensures EndsFirstPersist(s, a, p) ==> !Settled(s, p)
  {
  }

  lemma StepConserves(s: State, a: Action)
    requires Enabled(s, a) && Conserved(s) && AttemptsBounded(s)
    ensures Conserved(Step(s, a))
  {
    var t := Step(s, a);
    forall p: nat ensures Places(t, p) == if Settled(t, p) then 1 else 0 {
      PlacesAfter(s, a, p);
      SettledAfter(s, a, p);
    }
  }

  lemma StepBroadcastsOnce(s: State, a: Action)
    requires Enabled(s, a) && BroadcastOnce(s)
    ensures BroadcastOnce(Step(s, a))
  {
    var t := Step(s, a);
    forall p: nat ensures InSent(t, p) == if p < |t.pubs| && t.pubs[p].phase.Done? then 1 else 0 {
      assert InSent(s, p) == if p < |s.pubs| && s.pubs[p].phase.Done? then 1 else 0;
      if a.Broadcast? {
        CountAppend(s.sent, Message(a.pub, s.pubs[a.pub].phase.cursor), p, (m: Message) => m.pub);
      } else {
        assert t.sent == s.sent;
      }
    }
  }

  /** An event still in its first persist is nowhere else, and the event in flight is nowhere else either. */
  ghost predicate NowhereListed(s: State, p: nat) {
    && (forall i | 0 <= i < |s.queue| :: s.queue[i].pub != p)
    && (forall i | 0 <= i < |s.stored| :: s.stored[i] != p)
    && (forall i | 0 <= i < |s.lost| :: s.lost[i] != p)
    && (forall i | 0 <= i < |s.aborted| :: s.aborted[i] != p)
  }

  lemma OnlyInFlight(s: State, p: nat)
    requires Conserved(s) && (InFlight(s, p) == 1 || !Settled(s, p))
    ensures NowhereListed(s, p)
    ensures InFlight(s, p) == 1 ==> Settled(s, p)
  {
    assert Places(s, p) == if Settled(s, p) then 1 else 0;
    forall i | 0 <= i < |s.queue| ensures s.queue[i].pub != p { CountsMember(s.queue, i, (x: Item) => x.pub); }
    forall i | 0 <= i < |s.stored| ensures s.stored[i] != p { CountsMember(s.stored, i, (x: nat) => x); }
    forall i | 0 <= i < |s.lost| ensures s.lost[i] != p { CountsMember(s.lost, i, (x: nat) => x); }
    forall i | 0 <= i < |s.aborted| ensures s.aborted[i] != p { CountsMember(s.aborted, i, (x: nat) => x); }
  }

  lemma StepBoundsAttempts(s: State, a: Action)
    requires Enabled(s, a) && AttemptsBounded(s) && Conserved(s)
    ensures AttemptsBounded(Step(s, a))
  {
    hide FirstTryStep, RetryTryStep, NowhereListed, Conserved;
    match a
    case Arrive(_) =>
    case Broadcast(_) =>
    case Take =>
    case FirstTry(p, o) =>
      OnlyInFlight(s, p);
      match Judge(s.pubs[p].phase.passes, o) {
        case Saved => FirstSavedBounds(s, p);
        case TryAgain => FirstAgainBounds(s, p);
        case GaveUp => FirstGaveUpBounds(s, p);
        case Escaped => FirstEscapedBounds(s, p);
      }
    case RetryTry(o) =>
      OnlyInFlight(s, s.worker.item.pub);
      match Judge(s.worker.passes, o) {
        case Saved => RetrySavedBounds(s);
        case TryAgain => RetryAgainBounds(s);
        case GaveUp => RetryGaveUpBounds(s);
        case Escaped => RetryEscapedBounds(s);
      }
  }

  ghost predicate FirstReady(s: State, p: nat) {
    && p < |s.pubs| && s.pubs[p].phase.Persisting? && AttemptsBounded(s) && NowhereListed(s, p)
    && !(s.worker.Retrying? && s.worker.item.pub == p)
  }

  ghost predicate RetryReady(s: State) {
    && s.worker.Retrying? && AttemptsBounded(s) && NowhereListed(s, s.worker.item.pub)
    && !s.pubs[s.worker.item.pub].phase.Persisting?
  }

  lemma FirstSavedBounds(s: State, p: nat)
    requires FirstReady(s, p)
    ensures AttemptsBounded(FirstTryStep(s, p, Saved))
  {
  }

  lemma FirstAgainBounds(s: State, p: nat)
    requires FirstReady(s, p)
    requires s.pubs[p].phase.passes < PERSIST_MAX_ATTEMPTS - 1
    ensures AttemptsBounded(FirstTryStep(s, p, TryAgain))
  {
  }

  lemma FirstGaveUpBounds(s: State, p: nat)
    requires FirstReady(s, p)
    ensures AttemptsBounded(FirstTryStep(s, p, GaveUp))
  {
  }

  lemma FirstEscapedBounds(s: State, p: nat)
    requires FirstReady(s, p)
    ensures AttemptsBounded(FirstTryStep(s, p, Escaped))
  {
  }

  lemma RetrySavedBounds(s: State)
    requires RetryReady(s)
    ensures AttemptsBounded(RetryTryStep(s, Saved))
  {
  }

  lemma RetryAgainBounds(s: State)
    requires RetryReady(s)
    requires s.worker.passes < PERSIST_MAX_ATTEMPTS - 1
    ensures AttemptsBounded(RetryTryStep(s, TryAgain))
  {
  }

  lemma RetryGaveUpBounds(s: State)
    requires RetryReady(s)
    ensures AttemptsBounded(RetryTryStep(s, GaveUp))
  {
  }

  lemma RetryEscapedBounds(s: State)
    requires RetryReady(s)
    ensures AttemptsBounded(RetryTryStep(s, Escaped))
  {
  }

  lemma NotSentYet(s: State, p: nat)
    requires BroadcastOnce(s) && p < |s.pubs| && !s.pubs[p].phase.Done?
    ensures forall i | 0 <= i < |s.sent| :: s.sent[i].pub != p
  {
    assert InSent(s, p) == 0;
    forall i | 0 <= i < |s.sent| ensures s.sent[i].pub != p { CountsMember(s.sent, i, (m: Message) => m.pub); }
  }

  lemma StepKeepsCursors(s: State, a: Action)
    requires Enabled(s, a) && CursorsRight(s) && AttemptsBounded(s) && BroadcastOnce(s)
    requires s.worker.Retrying? ==> !s.pubs[s.worker.item.pub].phase.Persisting?
    ensures CursorsRight(Step(s, a))
  {
    hide FirstTryStep, RetryTryStep, BroadcastOnce;
    match a
    case Arrive(_) =>
    case Broadcast(_) =>
    case Take =>
    case FirstTry(p, o) =>
      NotSentYet(s, p);
      FirstTryKeepsCursors(s, p, Judge(s.pubs[p].phase.passes, o));
    case RetryTry(o) => RetryTryKeepsCursors(s, Judge(s.worker.passes, o));
  }

  lemma FirstTryKeepsCursors(s: State, p: nat, v: Verdict)
    requires p < |s.pubs| && s.pubs[p].phase.Persisting? && CursorsRight(s)
    requires Durable(s.pubs[p].event) && s.pubs[p].failed == 0
    requires forall i | 0 <= i < |s.sent| :: s.sent[i].pub != p
    ensures CursorsRight(FirstTryStep(s, p, v))
  {
    match v
    case Saved => assert s.stored <= s.stored + [p];
    case TryAgain =>
    case GaveUp =>
    case Escaped =>
  }

  lemma RetryTryKeepsCursors(s: State, v: Verdict)
    requires s.worker.Retrying? && s.worker.item.pub < |s.pubs| && CursorsRight(s)
    requires s.pubs[s.worker.item.pub].failed > 0
    ensures CursorsRight(RetryTryStep(s, v))
  {
    match v
    case Saved =>
    case TryAgain =>
    case GaveUp =>
    case Escaped =>
  }

  lemma StepKeepsUntouched(s: State, a: Action)
    requires Enabled(s, a) && BroadcastOnlyUntouched(s) && AttemptsBounded(s)
    requires s.worker.Retrying? ==> Durable(s.pubs[s.worker.item.pub].event)
    ensures BroadcastOnlyUntouched(Step(s, a))
  {
  }

  lemma StepKeepsInv(s: State, a: Action)
    requires Inv(s)
    ensures Inv(Step(s, a))
  {
    if Enabled(s, a) {
      StepConserves(s, a);
      StepBroadcastsOnce(s, a);
      StepBoundsAttempts(s, a);
      if s.worker.Retrying? { OnlyInFlight(s, s.worker.item.pub); }
      StepKeepsCursors(s, a);
      StepKeepsUntouched(s, a);
    }
  }

  lemma {:induction false} RunKeepsInv(s: State, acts: seq<Action>)
    requires Inv(s)
    ensures Inv(Run(s, acts))
    decreases |acts|
  {
    if acts != [] {
      StepKeepsInv(s, acts[0]);
      RunKeepsInv(Step(s, acts[0]), acts[1..]);
    }
  }

  // ---- What holds in every reachable state ----

  ghost predicate Reachable(s: State) {
    exists acts :: s == Run(INITIAL, acts)
  }

  lemma ReachableInv(s: State)
    requires Reachable(s)
    ensures Inv(s)
  {
    var acts :| s == Run(INITIAL, acts);
    RunKeepsInv(INITIAL, acts);
  }

  predicate Queued(s: State, p: nat, attempt: nat) { Item(p, attempt) in s.queue }
  predicate Handled(s: State, p: nat) { s.worker.Retrying? && s.worker.item.pub == p }

  /** A settled event is in exactly one place; every queued copy carries an attempt below ten. */
  lemma SettledEventIsInOnePlace(s: State, p: nat)
    requires Reachable(s) && Settled(s, p)
    ensures InStore(s, p) + InQueue(s, p) + InFlight(s, p) + InLost(s, p) + InAborted(s, p) == 1
    ensures p in s.stored || (exists a: nat :: a < DEAD_LETTER_MAX_RETRIES && Queued(s, p, a)) || Handled(s, p)
            || p in s.lost || p in s.aborted
  {
    ReachableInv(s);
    assert Places(s, p) == 1;
    if InQueue(s, p) == 1 {
      var i := FindCounted(s.queue, p, (i: Item) => i.pub);
      assert s.queue[i] == Item(p, s.queue[i].attempt);
      assert Queued(s, p, s.queue[i].attempt);
    }
    if InStore(s, p) == 1 { var i := FindCounted(s.stored, p, (x: nat) => x); }
    if InLost(s, p) == 1 { var i := FindCounted(s.lost, p, (x: nat) => x); }
    if InAborted(s, p) == 1 { var i := FindCounted(s.aborted, p, (x: nat) => x); }
  }

  lemma {:induction false} FindCounted<T>(s: seq<T>, p: nat, name: T -> nat) returns (i: nat)
    requires Count(s, p, name) >= 1
    ensures i < |s| && name(s[i]) == p
  {
    if name(s[|s| - 1]) == p { i := |s| - 1; } else { i := FindCounted(s[..|s| - 1], p, name); }
  }

  /** Nothing is stored or kept before its first persist ends, and broadcast-only events are never kept at all. */
  lemma UnsettledEventIsNowhere(s: State, p: nat)
    requires Reachable(s) && !Settled(s, p)
    ensures NowhereListed(s, p) && !Handled(s, p)
  {
    ReachableInv(s);
    OnlyInFlight(s, p);
  }

  /** An event is stored at most once, and sent once it is done and never before. */
  lemma StoredAndSentOnce(s: State, p: nat)
    requires Reachable(s)
    ensures InStore(s, p) <= 1 && InSent(s, p) <= 1
    ensures InSent(s, p) == 1 <==> p < |s.pubs| && s.pubs[p].phase.Done?
  {
    ReachableInv(s);
    assert Places(s, p) == if Settled(s, p) then 1 else 0;
    assert InSent(s, p) == if p < |s.pubs| && s.pubs[p].phase.Done? then 1 else 0;
  }

  /** The message of a durable event carries a cursor exactly when no persist of it has failed, and the cursor is its
      row. */
  lemma CursorIffFirstPersistSucceeded(s: State, i: nat)
    requires Reachable(s) && i < |s.sent|
    ensures s.sent[i].pub < |s.pubs|
    ensures Durable(s.pubs[s.sent[i].pub].event) ==>
      (s.sent[i].cursor.Some? <==> s.pubs[s.sent[i].pub].failed == 0)
    ensures s.sent[i].cursor.Some? ==>
      1 <= s.sent[i].cursor.value <= |s.stored| && s.stored[s.sent[i].cursor.value - 1] == s.sent[i].pub
  {
    ReachableInv(s);
    assert CursorNames(s, s.sent[i].pub, s.sent[i].cursor);
  }

  /** An event is lost only after its first persist and all ten dead-letter rounds gave up. */
  lemma LostOnlyAfterElevenFailures(s: State, p: nat)
    requires Reachable(s) && p in s.lost
    ensures p < |s.pubs| && s.pubs[p].failed == 11 && 11 <= s.pubs[p].tries <= 33
    ensures p !in s.stored
  {
    ReachableInv(s);
    var i :| 0 <= i < |s.lost| && s.lost[i] == p;
    CountsMember(s.lost, i, (x: nat) => x);
    assert Places(s, p) == 1;
    forall j | 0 <= j < |s.stored| ensures s.stored[j] != p { CountsMember(s.stored, j, (x: nat) => x); }
  }

  /** No event, whatever becomes of it, ever sees more than 33 append tries. */
  lemma AtMostThirtyThreeTries(s: State, p: nat)
    requires Reachable(s) && p < |s.pubs|
    ensures s.pubs[p].tries <= 33
  {
    ReachableInv(s);
    if Settled(s, p) {
      SettledEventIsInOnePlace(s, p);
      if a: nat :| a < DEAD_LETTER_MAX_RETRIES && Queued(s, p, a) {
        var i :| 0 <= i < |s.queue| && s.queue[i] == Item(p, a);
        assert WithinBudget(s, s.queue[i].pub, 0);
      }
    }
  }
}
