/** The action, purpose and action:purpose tables of one job, and how they agree. */
module AttributionTables {
  import opened Common
  import opened Ledger
  import opened Spans
  import opened PurposeHeuristic
  import PyText

  // ---- Contexts, actions and purposes of a job ----

  ghost predicate ContextsOf(spans: seq<Span>, order: seq<int>, contexts: map<int, Context>) {
    && DistinctTurns(order)
    && (forall t :: t in order <==> t in contexts)
    && (forall t :: t in contexts <==> HasTurnContext(spans, t))
    && (forall t :: ContextOf(spans, t) == if t in contexts then contexts[t] else NO_CONTEXT)
  }

  predicate Creates(s: Span) { s.turn.Some? && (IsTool(s) || HasPhase(s)) }

  /** Turns in the order in which their contexts are created, their contexts, and the LLM cost of every turn. */
  method BuildTurnContexts(spans: seq<Span>)
    returns (order: seq<int>, contexts: map<int, Context>, costs: map<int, Bucket>)
    ensures ContextsOf(spans, order, contexts)
    ensures costs == TurnCosts(spans)
  {
    order, contexts, costs := [], map[], map[];
    for i := 0 to |spans|
      invariant ContextsOf(spans[..i], order, contexts)
      invariant costs == TurnCosts(spans[..i])
    {
      var span := spans[i];
      TakeOneMore(spans, i);
      TurnCostsMore(spans[..i], span);
      ghost var order0, contexts0 := order, contexts;
      if span.turn.Some? {
        var turn := span.turn.value;
        if span.kind.Llm? { costs := Credit(costs, turn, Usage(span)); }
        if IsTool(span) || HasPhase(span) {
          var ctx := if turn in contexts then contexts[turn] else NO_CONTEXT;
          order := if turn in contexts then order else order + [turn];
          contexts := contexts[turn := Extend(ctx, span)];
        }
      }
      ContextAdded(spans[..i], span, order0, contexts0, order, contexts);
    }
    assert spans[..|spans|] == spans;
  }

  lemma ContextAdded(spans: seq<Span>, s: Span, order0: seq<int>, contexts0: map<int, Context>,
                     order: seq<int>, contexts: map<int, Context>)
    requires ContextsOf(spans, order0, contexts0)
    requires !Creates(s) ==> order == order0 && contexts == contexts0
    requires Creates(s) ==>
      var t := s.turn.value;
      && order == (if t in contexts0 then order0 else order0 + [t])
      && contexts == contexts0[t := Extend(if t in contexts0 then contexts0[t] else NO_CONTEXT, s)]
    ensures ContextsOf(spans + [s], order, contexts)
  {
    forall t ensures t in contexts <==> HasTurnContext(spans + [s], t) { ContextMore(spans, s, t); }
    forall t ensures ContextOf(spans + [s], t) == if t in contexts then contexts[t] else NO_CONTEXT {
      ContextMore(spans, s, t);
    }
  }

  function ActionsFrom(contexts: map<int, Context>): map<int, string> {
    map t | t in contexts :: ClassifyAction(contexts[t])
  }

  lemma ActionsAreRecorded(spans: seq<Span>, order: seq<int>, contexts: map<int, Context>)
    requires ContextsOf(spans, order, contexts)
    ensures ActionsOf(spans, ActionsFrom(contexts))
  {
    hide ClassifyAction, ContextOf, HasTurnContext;
    var actions := ActionsFrom(contexts);
    forall t ensures RecordedAction(spans, t) == if t in actions then Some(actions[t]) else None {
      assert ContextOf(spans, t) == if t in contexts then contexts[t] else NO_CONTEXT;
    }
  }

  /** The action of every turn with a context. */
  method ClassifyActions(spans: seq<Span>, order: seq<int>, contexts: map<int, Context>)
    returns (actions: map<int, string>)
    requires ContextsOf(spans, order, contexts)
    ensures ActionsOf(spans, actions)
  {
    actions := ActionsFrom(contexts);
    ActionsAreRecorded(spans, order, contexts);
  }

  /** The purpose of every turn with a context, each from the recorded actions. */
  method ClassifyPurposes(turns: seq<int>, contexts: map<int, Context>, nodes: seq<TrailNode>,
                          actions: map<int, string>)
    returns (purposes: map<int, string>)
    requires forall t | t in turns :: t in contexts
    ensures forall t :: t in purposes <==> t in turns
    ensures forall t | t in turns :: purposes[t] == ClassifyPurpose(t, contexts[t], NodesOf(nodes, t), actions)
  {
    purposes := map[];
    for i := 0 to |turns|
      invariant forall t :: t in purposes <==> t in turns[..i]
      invariant forall t | t in turns[..i] :: purposes[t] == ClassifyPurpose(t, contexts[t], NodesOf(nodes, t), actions)
    {
      var t := turns[i];
      TakeOneMore(turns, i);
      var purpose := ClassifyPurposeHeuristic(t, contexts[t], NodesOf(nodes, t), actions);
      purposes := purposes[t := purpose];
    }
    assert turns[..|turns|] == turns;
  }

  // ---- The tables ----

  function LabelOf(actions: map<int, string>): int -> string {
    (t: int) => if t in actions then actions[t] else ""
  }

  function CrossKey(action: string, purpose: string): string { action + ":" + purpose }

  function CrossLabel(actions: map<int, string>, purposes: map<int, string>): int -> string {
    (t: int) => CrossKey(LabelOf(actions)(t), LabelOf(purposes)(t))
  }

  /** The turns of the list that have a purpose. */
  function WithPurpose(turns: seq<int>, purposes: map<int, string>): seq<int> {
    if turns == [] then []
    else
      var t := turns[|turns| - 1];
      var before := WithPurpose(turns[..|turns| - 1], purposes);
      if t in purposes && purposes[t] != "" then before + [t] else before
  }

  /** The aggregation loop: a turn without a purpose is charged to its action alone. */
  method AggregateRows(turns: seq<int>, actions: map<int, string>, purposes: map<int, string>, costs: map<int, Bucket>)
    returns (byAction: map<string, Bucket>, byPurpose: map<string, Bucket>, byCross: map<string, Bucket>)
    requires forall t | t in turns :: t in actions
    ensures byAction == GroupBy(turns, costs, LabelOf(actions))
    ensures byPurpose == GroupBy(WithPurpose(turns, purposes), costs, LabelOf(purposes))
    ensures byCross == GroupBy(WithPurpose(turns, purposes), costs, CrossLabel(actions, purposes))
  {
    byAction, byPurpose, byCross := map[], map[], map[];
    for i := 0 to |turns|
      invariant byAction == GroupBy(turns[..i], costs, LabelOf(actions))
      invariant byPurpose == GroupBy(WithPurpose(turns[..i], purposes), costs, LabelOf(purposes))
      invariant byCross == GroupBy(WithPurpose(turns[..i], purposes), costs, CrossLabel(actions, purposes))
    {
      var t := turns[i];
      assert t in turns;
      TakeOneMore(turns, i);
      GroupMore(turns[..i], t, costs, LabelOf(actions));
      WithPurposeMore(turns[..i], t, purposes);
      var cost := TurnCharge(costs, t);
      byAction := Credit(byAction, actions[t], cost);
      if t in purposes && purposes[t] != "" {
        GroupMore(WithPurpose(turns[..i], purposes), t, costs, LabelOf(purposes));
        GroupMore(WithPurpose(turns[..i], purposes), t, costs, CrossLabel(actions, purposes));
        byPurpose := Credit(byPurpose, purposes[t], cost);
        byCross := Credit(byCross, CrossKey(actions[t], purposes[t]), cost);
      }
    }
    assert turns[..|turns|] == turns;
  }

  lemma WithPurposeMore(turns: seq<int>, t: int, purposes: map<int, string>)
    ensures WithPurpose(turns + [t], purposes)
         == if t in purposes && purposes[t] != "" then WithPurpose(turns, purposes) + [t]
             else WithPurpose(turns, purposes)
  {
    AppendLast(turns, t);
  }

  // ---- Cross keys split back ----

  /** `bucket.split(":", 1)`: the parts before and after the first colon. */
  function SplitKey(key: string): Option<(string, string)> {
    if ':' in key then Some(PyText.SplitOnce(key, ':')) else None
  }

  lemma CrossKeySplits(action: string, purpose: string)
    requires ':' !in action
    ensures SplitKey(CrossKey(action, purpose)) == Some((action, purpose))
  {
    PyText.SplitOnceAt(action, ':', purpose);
  }

  // ---- Agreement ----

  function OfAction(a: string): string -> bool {
    (key: string) => SplitKey(key).Some? && SplitKey(key).value.0 == a
  }

  function OfPurpose(p: string): string -> bool {
    (key: string) => SplitKey(key).Some? && SplitKey(key).value.1 == p
  }

  ghost predicate ColonFree(actions: map<int, string>) {
    forall t | t in actions :: ':' !in actions[t]
  }

  predicate HasPurposes(turns: seq<int>, purposes: map<int, string>) {
    forall t | t in turns :: t in purposes && purposes[t] != ""
  }

  lemma {:induction false} AllHavePurpose(turns: seq<int>, purposes: map<int, string>)
    requires HasPurposes(turns, purposes)
    ensures WithPurpose(turns, purposes) == turns
  {
    if turns != [] {
      assert turns == turns[..|turns| - 1] + [turns[|turns| - 1]];
      assert turns[|turns| - 1] in turns;
      AllHavePurpose(turns[..|turns| - 1], purposes);
    }
  }

  /** Summing the cross table over all purposes of an action gives the action's bucket, column by column. */
  lemma CrossSumsToActions(turns: seq<int>, actions: map<int, string>, purposes: map<int, string>,
                           costs: map<int, Bucket>, a: string)
    requires (forall t | t in turns :: t in actions) && ColonFree(actions)
    ensures Total(Where(GroupBy(turns, costs, CrossLabel(actions, purposes)), OfAction(a)))
         == Get(GroupBy(turns, costs, LabelOf(actions)), a)
  {
    forall t | t in turns ensures OfAction(a)(CrossLabel(actions, purposes)(t)) <==> LabelOf(actions)(t) == a {
      CrossKeySplits(LabelOf(actions)(t), LabelOf(purposes)(t));
    }
    FineSumsToCoarse(turns, costs, CrossLabel(actions, purposes), LabelOf(actions), OfAction(a), a);
  }

  /** Summing it over all actions of a purpose gives the purpose's bucket. */
  lemma CrossSumsToPurposes(turns: seq<int>, actions: map<int, string>, purposes: map<int, string>,
                            costs: map<int, Bucket>, p: string)
    requires (forall t | t in turns :: t in actions) && ColonFree(actions)
    ensures Total(Where(GroupBy(turns, costs, CrossLabel(actions, purposes)), OfPurpose(p)))
         == Get(GroupBy(turns, costs, LabelOf(purposes)), p)
  {
    forall t | t in turns ensures OfPurpose(p)(CrossLabel(actions, purposes)(t)) <==> LabelOf(purposes)(t) == p {
      CrossKeySplits(LabelOf(actions)(t), LabelOf(purposes)(t));
    }
    FineSumsToCoarse(turns, costs, CrossLabel(actions, purposes), LabelOf(purposes), OfPurpose(p), p);
  }

  // ---- The tables of a job ----

  ghost function Acting(spans: seq<Span>, a: string): int -> bool {
    (t: int) => RecordedAction(spans, t) == Some(a)
  }

  /** The turns with a context whose purpose, judged against the recorded actions, is `p`. */
  ghost function Purposed(spans: seq<Span>, nodes: seq<TrailNode>, actions: map<int, string>, p: string): int -> bool {
    (t: int) => HasTurnContext(spans, t) && ClassifyPurpose(t, ContextOf(spans, t), NodesOf(nodes, t), actions) == p
  }

  /** The turns with a tool span or a phase. */
  function Contextual(spans: seq<Span>): int -> bool {
    (t: int) => HasTurnContext(spans, t)
  }

  function ContextFree(spans: seq<Span>): int -> bool {
    (t: int) => !HasTurnContext(spans, t)
  }

  /** A table that the action dimension of these spans may consist of. */
  ghost predicate IsActionTable(spans: seq<Span>, byAction: map<string, Bucket>) {
    exists order, contexts, actions ::
      ContextsOf(spans, order, contexts) && ActionsOf(spans, actions)
      && byAction == GroupBy(order, TurnCosts(spans), LabelOf(actions))
  }

  /** The rows written for a job: each bucket holds the LLM usage of the turns it stands for, the three tables agree,
      and their grand total is the LLM usage of exactly those turns that have a tool span or a phase. */
  method AttributeJob(spans: seq<Span>, nodes: seq<TrailNode>)
    returns (byAction: map<string, Bucket>, byPurpose: map<string, Bucket>, byCross: map<string, Bucket>,
        actions: map<int, string>)
    ensures ActionsOf(spans, actions) && IsActionTable(spans, byAction)
    ensures forall a :: Get(byAction, a).(calls := 0) == LlmUsage(spans, Acting(spans, a))
    ensures forall p :: Get(byPurpose, p).(calls := 0) == LlmUsage(spans, Purposed(spans, nodes, actions, p))
    ensures forall a :: Total(Where(byCross, OfAction(a))) == Get(byAction, a)
    ensures forall p :: Total(Where(byCross, OfPurpose(p))) == Get(byPurpose, p)
    ensures Total(byAction) == Total(byPurpose) == Total(byCross)
    ensures Total(byAction).(calls := 0) == LlmUsage(spans, Contextual(spans))
  {
    var order, contexts, costs := BuildTurnContexts(spans);
    actions := ClassifyActions(spans, order, contexts);
    var purposes := ClassifyPurposes(order, contexts, nodes, actions);
    RecordedActions(spans, order, contexts, actions);
    AllHavePurpose(order, purposes);
    byAction, byPurpose, byCross := AggregateRows(order, actions, purposes, costs);
    forall a {
      ActionUsage(spans, order, contexts, actions, a);
    }
    forall p {
      PurposeUsage(spans, order, contexts, nodes, actions, purposes, p);
    }
    forall a ensures Total(Where(byCross, OfAction(a))) == Get(byAction, a) {
      CrossSumsToActions(order, actions, purposes, costs, a);
    }
    forall p ensures Total(Where(byCross, OfPurpose(p))) == Get(byPurpose, p) {
      CrossSumsToPurposes(order, actions, purposes, costs, p);
    }
    GrandTotal(order, costs, LabelOf(actions));
    GrandTotal(order, costs, LabelOf(purposes));
    GrandTotal(order, costs, CrossLabel(actions, purposes));
    AttributedUsage(spans, order, contexts);
  }

  lemma ActionUsage(spans: seq<Span>, order: seq<int>, contexts: map<int, Context>, actions: map<int, string>,
                    a: string)
    requires ContextsOf(spans, order, contexts) && ActionsOf(spans, actions)
    ensures Get(GroupBy(order, TurnCosts(spans), LabelOf(actions)), a).(calls := 0) == LlmUsage(spans, Acting(spans, a))
  {
    forall t ensures Acting(spans, a)(t) <==> t in order && LabelOf(actions)(t) == a {
      assert RecordedAction(spans, t) == if t in actions then Some(actions[t]) else None;
      assert RecordedAction(spans, t).Some? <==> HasTurnContext(spans, t);
    }
    LabelUsage(spans, order, LabelOf(actions), a, Acting(spans, a));
  }

  lemma PurposeUsage(spans: seq<Span>, order: seq<int>, contexts: map<int, Context>, nodes: seq<TrailNode>,
                     actions: map<int, string>, purposes: map<int, string>, p: string)
    requires ContextsOf(spans, order, contexts)
    requires forall t :: t in purposes <==> t in order
    requires forall t | t in order :: purposes[t] == ClassifyPurpose(t, contexts[t], NodesOf(nodes, t), actions)
    ensures Get(GroupBy(order, TurnCosts(spans), LabelOf(purposes)), p).(calls := 0)
         == LlmUsage(spans, Purposed(spans, nodes, actions, p))
  {
    forall t ensures Purposed(spans, nodes, actions, p)(t) <==> t in order && LabelOf(purposes)(t) == p {
      assert ContextOf(spans, t) == if t in contexts then contexts[t] else NO_CONTEXT;
    }
    LabelUsage(spans, order, LabelOf(purposes), p, Purposed(spans, nodes, actions, p));
  }

  /** A label's bucket over distinct turns is the LLM usage of the turns that carry the label. */
  lemma LabelUsage(spans: seq<Span>, order: seq<int>, labelOf: int -> string, key: string, q: int -> bool)
    requires DistinctTurns(order)
    requires forall t :: q(t) <==> t in order && labelOf(t) == key
    ensures Get(GroupBy(order, TurnCosts(spans), labelOf), key).(calls := 0) == LlmUsage(spans, q)
  {
    var p := Labelled(labelOf, Equal(key));
    BucketIsItsTurns(order, TurnCosts(spans), labelOf, key);
    ChargesOfChosen(order, TurnCosts(spans), p);
    TurnCostsAddUp(spans, Chosen(order, p));
    SelectedUsage(spans, t => t in Chosen(order, p), q);
    NoCalls(spans, q);
  }

  lemma RecordedActions(spans: seq<Span>, order: seq<int>, contexts: map<int, Context>, actions: map<int, string>)
    requires ContextsOf(spans, order, contexts) && ActionsOf(spans, actions)
    ensures (forall t | t in order :: t in actions) && ColonFree(actions)
  {
    forall t ensures t in actions <==> t in order {
      assert RecordedAction(spans, t).Some? <==> HasTurnContext(spans, t);
    }
    forall t | t in actions ensures ':' !in actions[t] {
      assert RecordedAction(spans, t) == Some(ClassifyAction(ContextOf(spans, t)));
    }
  }

  lemma AttributedUsage(spans: seq<Span>, order: seq<int>, contexts: map<int, Context>)
    requires ContextsOf(spans, order, contexts)
    ensures SumOver(order, TurnCosts(spans)).(calls := 0) == LlmUsage(spans, Contextual(spans))
  {
    TurnCostsAddUp(spans, order);
    SelectedUsage(spans, t => t in order, Contextual(spans));
    NoCalls(spans, Contextual(spans));
  }

  lemma {:induction false} NoCalls(spans: seq<Span>, p: int -> bool)
    ensures LlmUsage(spans, p).calls == 0
  {
    if spans != [] {
      NoCalls(spans[..|spans| - 1], p);
      assert Selected(IsLlm, Usage, p)(spans[|spans| - 1]).calls == 0;
    }
  }

  // ---- What the tables leave out ----

  lemma ActionTableTotal(spans: seq<Span>, byAction: map<string, Bucket>)
    requires IsActionTable(spans, byAction)
    ensures Total(byAction).(calls := 0) == LlmUsage(spans, Contextual(spans))
  {
    var order, contexts, actions :| ContextsOf(spans, order, contexts) && ActionsOf(spans, actions)
      && byAction == GroupBy(order, TurnCosts(spans), LabelOf(actions));
    GrandTotal(order, TurnCosts(spans), LabelOf(actions));
    AttributedUsage(spans, order, contexts);
  }

  lemma {:induction false} UsageSplits(spans: seq<Span>, p: int -> bool, q: int -> bool)
    requires forall t :: q(t) <==> !p(t)
    ensures LlmUsage(spans, Anything()) == Add(LlmUsage(spans, p), LlmUsage(spans, q))
  {
    hide Add;
    if spans == [] {
      AddSwap(ZERO, ZERO, ZERO);
    } else {
      var init, last := spans[..|spans| - 1], spans[|spans| - 1];
      UsageSplits(init, p, q);
      AddEither(LlmUsage(init, p), LlmUsage(init, q), Selected(IsLlm, Usage, Anything())(last));
    }
  }

  /** The action table falls short of the job's LLM usage by exactly the turns without a tool span or a phase. */
  lemma UnattributedUsage(spans: seq<Span>, byAction: map<string, Bucket>)
    requires IsActionTable(spans, byAction)
    ensures LlmUsage(spans, Anything()) == Add(Total(byAction).(calls := 0), LlmUsage(spans, ContextFree(spans)))
  {
    ActionTableTotal(spans, byAction);
    UsageSplits(spans, Contextual(spans), ContextFree(spans));
  }

  ghost predicate SameButUsage(spans: seq<Span>, layout: seq<Span>) {
    |spans| == |layout| && forall i | 0 <= i < |spans| :: spans[i] == layout[i].(usage := spans[i].usage)
  }

  /** Every turn with an LLM span has a tool span or a phase. */
  predicate LlmTurnsHaveContext(spans: seq<Span>) {
    forall i | 0 <= i < |spans| && IsLlm(spans[i]) && spans[i].turn.Some? :: HasTurnContext(spans, spans[i].turn.value)
  }

  /** Whatever the LLM spans have used, all of it is attributed exactly when every turn with an LLM span has a tool span
      or a phase. */
  lemma AllAttributedIff(layout: seq<Span>)
    ensures LlmTurnsHaveContext(layout) <==>
      forall spans, byAction :: SameButUsage(spans, layout) && IsActionTable(spans, byAction)
        ==> Total(byAction).(calls := 0) == LlmUsage(spans, Anything())
  {
    if LlmTurnsHaveContext(layout) {
      forall spans, byAction | SameButUsage(spans, layout) && IsActionTable(spans, byAction)
        ensures Total(byAction).(calls := 0) == LlmUsage(spans, Anything())
      {
        SameContexts(spans, layout);
        ActionTableTotal(spans, byAction);
        SelectedUsage(spans, Contextual(spans), Anything());
      }
    } else {
      var i :| 0 <= i < |layout| && IsLlm(layout[i]) && layout[i].turn.Some?
            && !HasTurnContext(layout, layout[i].turn.value);
      var spans, byAction := LostUsage(layout, i);
    }
  }

  lemma SameContexts(spans: seq<Span>, layout: seq<Span>)
    requires SameButUsage(spans, layout)
    ensures forall t :: HasTurnContext(spans, t) <==> HasTurnContext(layout, t)
    ensures LlmTurnsHaveContext(layout) ==> LlmTurnsHaveContext(spans)
  {
    forall i, t | 0 <= i < |spans|
      ensures (InTurn(spans[i], t) && (IsTool(spans[i]) || HasPhase(spans[i])))
         <==> (InTurn(layout[i], t) && (IsTool(layout[i]) || HasPhase(layout[i])))
    {
    }
  }

  /** One input token, used by an LLM span of a turn without a context, is in no row. */
  lemma LostUsage(layout: seq<Span>, i: nat) returns (spans: seq<Span>, byAction: map<string, Bucket>)
    requires i < |layout| && IsLlm(layout[i]) && layout[i].turn.Some? && !HasTurnContext(layout, layout[i].turn.value)
    ensures SameButUsage(spans, layout) && IsActionTable(spans, byAction)
    ensures Total(byAction).(calls := 0) != LlmUsage(spans, Anything())
  {
    hide Add, HasTurnContext;
    spans := OneToken(layout, i);
    SameContexts(spans, layout);
    byAction := ActionTableExists(spans);
    ActionTableTotal(spans, byAction);
    NothingUsed(spans, i, Contextual(spans));
    TokenUsed(spans, i, Anything());
  }

  const TOKEN := ZERO.(input := 1)

  ghost predicate OnlyUses(spans: seq<Span>, i: nat) {
    && i < |spans| && spans[i].usage == TOKEN
    && forall k | 0 <= k < |spans| && k != i :: spans[k].usage == ZERO
  }

  lemma OneToken(layout: seq<Span>, i: nat) returns (spans: seq<Span>)
    requires i < |layout|
    ensures SameButUsage(spans, layout) && OnlyUses(spans, i)
  {
    spans := seq(|layout|, k requires 0 <= k < |layout| => layout[k].(usage := if k == i then TOKEN else ZERO));
  }

  lemma NothingUsed(spans: seq<Span>, i: nat, p: int -> bool)
    requires OnlyUses(spans, i) && spans[i].turn.Some? && !p(spans[i].turn.value)
    ensures LlmUsage(spans, p) == ZERO
  {
    hide Add;
    ZeroSum(spans, Selected(IsLlm, Usage, p));
  }

  lemma TokenUsed(spans: seq<Span>, i: nat, p: int -> bool)
    requires OnlyUses(spans, i) && IsLlm(spans[i]) && spans[i].turn.Some? && p(spans[i].turn.value)
    ensures LlmUsage(spans, p) == TOKEN
  {
    hide Add;
    var v, none := Selected(IsLlm, Usage, p), (s: Span) => ZERO;
    AddSwap(TOKEN, ZERO, ZERO);
    SumsDifferAt(spans, spans, v, none, i, TOKEN);
    ZeroSum(spans, none);
  }

  /** Every job has an action table. */
  lemma ActionTableExists(spans: seq<Span>) returns (byAction: map<string, Bucket>)
    ensures IsActionTable(spans, byAction)
  {
    hide ContextsOf, ActionsOf, ActionsFrom;
    var order, contexts := ContextsExist(spans);
    ActionsAreRecorded(spans, order, contexts);
    byAction := GroupBy(order, TurnCosts(spans), LabelOf(ActionsFrom(contexts)));
  }

  lemma {:induction false} ContextsExist(spans: seq<Span>) returns (order: seq<int>, contexts: map<int, Context>)
    ensures ContextsOf(spans, order, contexts)
  {
    order, contexts := [], map[];
    if spans != [] {
      var init, last := spans[..|spans| - 1], spans[|spans| - 1];
      var order0, contexts0 := ContextsExist(init);
      order, contexts := order0, contexts0;
      if Creates(last) {
        var t := last.turn.value;
        order := if t in contexts0 then order0 else order0 + [t];
        contexts := contexts0[t := Extend(if t in contexts0 then contexts0[t] else NO_CONTEXT, last)];
      }
      ContextAdded(init, last, order0, contexts0, order, contexts);
      assert spans == init + [last];
    }
  }
}
