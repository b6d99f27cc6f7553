/** Milestone timeline: headlines that retroactively replace earlier ones. */
module Timeline {
  import opened Common

  /** `collapses` is the payload's replaces_count, 0 when absent; a negative count removes nothing. */
  datatype Headline<T> = Headline(collapses: int, milestone: T)

  function DropLast<T>(s: seq<T>, k: nat): seq<T> {
    if k < |s| then s[..|s| - k] else []
  }

  /** How many milestones a count removes. */
  function Max0(k: int): (r: nat)
    ensures k <= 0 ==> r == 0
    ensures k >= 0 ==> r == k
  {
    if k > 0 then k else 0
  }

  /** The list after the first events, later events acting on what earlier ones left. */
  function Forward<T>(events: seq<Headline<T>>): seq<T> {
    if events == [] then []
    else
      var last := events[|events| - 1];
      DropLast(Forward(events[..|events| - 1]), Max0(last.collapses)) + [last.milestone]
  }

  /** The replay loop of the endpoint. */
  method Replay<T>(events: seq<Headline<T>>) returns (milestones: seq<T>)
    ensures milestones == Forward(events)
  {
    milestones := [];
    for i := 0 to |events|
      invariant milestones == Forward(events[..i])
    {
      var collapses := events[i].collapses;
      assert events[..i + 1][..i] == events[..i];
      if collapses > 0 {
        milestones := if collapses < |milestones| then milestones[..|milestones| - collapses] else [];
      }
      milestones := milestones + [events[i].milestone];
    }
    assert events[..|events|] == events;
  }

  /** What one more event makes of the list: a positive count takes that many milestones from the end, or all there are;
      zero or less takes none; and the event's own milestone is last. */
  lemma OneMoreEvent<T>(events: seq<Headline<T>>, e: Headline<T>)
    ensures var before, after := Forward(events), Forward(events + [e]);
      && after != [] && after[|after| - 1] == e.milestone
      && after[..|after| - 1] <= before
      && (e.collapses <= 0 ==> |after| == |before| + 1)
      && (0 < e.collapses <= |before| ==> |after| == |before| + 1 - e.collapses)
      && (e.collapses > |before| ==> |after| == 1)
  {
    assert (events + [e])[..|events|] == events;
  }

  predicate Below(kept: seq<nat>, n: nat) {
    forall i | 0 <= i < |kept| :: kept[i] < n
  }

  /** One pass from the last event to the first: the positions that survive, with `kill` milestones still to be
      removed. */
  function Survivors<T>(events: seq<Headline<T>>, kill: nat): (kept: seq<nat>)
    ensures Below(kept, |events|)
  {
    if events == [] then []
    else
      var n := |events| - 1;
      var owed := Max0(events[n].collapses);
      if kill > 0 then Survivors(events[..n], kill - 1 + owed)
      else Survivors(events[..n], owed) + [n]
  }

  ghost predicate Ascending(s: seq<nat>) {
    forall i, j | 0 <= i < j < |s| :: s[i] < s[j]
  }

  /** Positions are listed in ascending order, each once. */
  lemma {:induction false} SurvivorsAscend<T>(events: seq<Headline<T>>, kill: nat)
    ensures Ascending(Survivors(events, kill))
  {
    if events != [] {
      var n := |events| - 1;
      var rest := if kill > 0 then kill - 1 + Max0(events[n].collapses) else Max0(events[n].collapses);
      SurvivorsAscend(events[..n], rest);
      SurvivorsStep(events, kill);
    }
  }

  /** The milestones of the listed events, in the order of the list. */
  function Pick<T>(events: seq<Headline<T>>, kept: seq<nat>): seq<T>
    requires Below(kept, |events|)
  {
    if kept == [] then [] else Pick(events, kept[..|kept| - 1]) + [events[kept[|kept| - 1]].milestone]
  }

  lemma DropDrop<T>(s: seq<T>, a: nat, b: nat)
    ensures DropLast(DropLast(s, a), b) == DropLast(s, a + b)
  {
  }

  lemma DropAppended<T>(s: seq<T>, x: T, k: nat)
    requires k > 0
    ensures DropLast(s + [x], k) == DropLast(s, k - 1)
  {
  }

  lemma {:induction false} PickFromPrefix<T>(events: seq<Headline<T>>, n: nat, kept: seq<nat>)
    requires n < |events| && Below(kept, n)
    ensures Pick(events, kept) == Pick(events[..n], kept)
    ensures Pick(events, kept + [n]) == Pick(events[..n], kept) + [events[n].milestone]
  {
    AppendLast(kept, n);
    if kept != [] { PickFromPrefix(events, n, kept[..|kept| - 1]); }
  }

  /** Removing the last `kill` milestones of the forward replay is the backward pass with that many still to kill. */
  lemma {:induction false} BackwardPassAgrees<T>(events: seq<Headline<T>>, kill: nat)
    ensures DropLast(Forward(events), kill) == Pick(events, Survivors(events, kill))
  {
    if events == [] {
    } else {
      hide *;
      var n := |events| - 1;
      var owed := Max0(events[n].collapses);
      var rest := if kill > 0 then kill - 1 + owed else owed;
      BackwardPassAgrees(events[..n], rest);
      PickFromPrefix(events, n, Survivors(events[..n], rest));
      ForwardLast(events);
      ForwardStep(Forward(events[..n]), owed, events[n].milestone, kill);
      SurvivorsStep(events, kill);
    }
  }

  lemma ForwardLast<T>(events: seq<Headline<T>>)
    requires events != []
    ensures var n := |events| - 1;
      Forward(events) == DropLast(Forward(events[..n]), Max0(events[n].collapses)) + [events[n].milestone]
  {
  }

  lemma ForwardStep<T>(before: seq<T>, owed: nat, last: T, kill: nat)
    ensures DropLast(DropLast(before, owed) + [last], kill)
         == if kill > 0 then DropLast(before, kill - 1 + owed) else DropLast(before, owed) + [last]
  {
    if kill > 0 {
      DropAppended(DropLast(before, owed), last, kill);
      DropDrop(before, owed, kill - 1);
    }
  }

  lemma SurvivorsStep<T>(events: seq<Headline<T>>, kill: nat)
    requires events != []
    ensures var n, owed := |events| - 1, Max0(events[|events| - 1].collapses);
      Survivors(events, kill) == if kill > 0 then Survivors(events[..n], kill - 1 + owed)
          else Survivors(events[..n], owed) + [n]
  {
  }

  /** The timeline lists surviving events in order, each once, and ends with the latest event. */
  lemma ReplayKeepsSurvivors<T>(events: seq<Headline<T>>)
    ensures Forward(events) == Pick(events, Survivors(events, 0))
    ensures Ascending(Survivors(events, 0))
    ensures events != [] ==>
      Survivors(events, 0) != [] && Survivors(events, 0)[|Survivors(events, 0)| - 1] == |events| - 1
  {
    SurvivorsAscend(events, 0);
    BackwardPassAgrees(events, 0);
    assert DropLast(Forward(events), 0) == Forward(events);
  }

  /** Milestones that the events from `i` on still owe to the list as it stood before event `i`. */
  function Owed<T>(events: seq<Headline<T>>, i: nat): nat
    requires i <= |events|
    decreases |events| - i
  {
    if i == |events| then 0
    else
      var later := Owed(events, i + 1);
      Max0(events[i].collapses) + if later > 0 then later - 1 else 0
  }

  lemma {:induction false} SurvivorsWithin<T>(events: seq<Headline<T>>, n: nat, i: nat)
    requires i < n <= |events|
    ensures i in Survivors(events[..n], Owed(events, n)) <==> Owed(events, i + 1) == 0
    decreases n
  {
    var prefix := events[..n];
    assert prefix[..n - 1] == events[..n - 1] && prefix[n - 1] == events[n - 1];
    var kill, owed := Owed(events, n), Max0(events[n - 1].collapses);
    if i == n - 1 {
      assert kill > 0 ==> forall x | x in Survivors(prefix, kill) :: x < n - 1;
    } else {
      SurvivorsWithin(events, n - 1, i);
    }
  }

  lemma SurvivesIffNothingOwed<T>(events: seq<Headline<T>>, i: nat)
    requires i < |events|
    ensures i in Survivors(events, 0) <==> Owed(events, i + 1) == 0
  {
    assert events[..|events|] == events;
    SurvivorsWithin(events, |events|, i);
  }

  /** What the events from `i` through `j` collapse in all. */
  function Collapses<T>(events: seq<Headline<T>>, i: nat, j: nat): nat
    requires i <= j < |events|
    decreases j - i
  {
    Max0(events[i].collapses) + if i == j then 0 else Collapses(events, i + 1, j)
  }

  /** From event `i` on, no stretch collapses more than `q` milestones beyond those it has added before its last
      event. */
  ghost predicate Within<T>(events: seq<Headline<T>>, i: nat, q: nat) {
    forall j | i <= j < |events| :: Collapses(events, i, j) <= q + (j - i)
  }

  lemma WithinStep<T>(events: seq<Headline<T>>, i: nat, q: nat)
    requires i < |events|
    ensures var c := Max0(events[i].collapses); Within(events, i, q) <==> c <= q && Within(events, i + 1, q - c + 1)
  {
    var c, next := Max0(events[i].collapses), i + 1;
    assert Collapses(events, i, i) == c;
    if Within(events, i, q) {
      forall j | next <= j < |events| ensures Collapses(events, next, j) <= (q - c + 1) + (j - next) {
        assert Collapses(events, i, j) == c + Collapses(events, i + 1, j);
      }
    }
    if c <= q && Within(events, i + 1, q - c + 1) {
      forall j | i <= j < |events| ensures Collapses(events, i, j) <= q + (j - i) {
        if i < j { assert Collapses(events, i, j) == c + Collapses(events, i + 1, j); }
      }
    }
  }

  lemma {:induction false} OwedAtMost<T>(events: seq<Headline<T>>, i: nat, q: nat)
    requires i <= |events|
    ensures Owed(events, i) <= q <==> Within(events, i, q)
    decreases |events| - i
  {
    if i < |events| {
      hide Within;
      var c := Max0(events[i].collapses);
      WithinStep(events, i, q);
      if c <= q { OwedAtMost(events, i + 1, q - c + 1); }
    }
  }

  /** What the events after `i` collapse, through any later one, is no more than the milestones added in between. */
  ghost predicate NeverReached<T>(events: seq<Headline<T>>, i: nat)
    requires i < |events|
  {
    var next := i + 1;
    forall j | next <= j < |events| :: Collapses(events, next, j) <= j - next
  }

  /** An event survives exactly when later collapses never reach back to it. */
  lemma SurvivesIffNeverReached<T>(events: seq<Headline<T>>, i: nat)
    requires i < |events|
    ensures i in Survivors(events, 0) <==> NeverReached(events, i)
  {
    hide Survivors, Owed, Collapses;
    SurvivesIffNothingOwed(events, i);
    OwedAtMost(events, i + 1, 0);
  }
}
