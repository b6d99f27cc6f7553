/** Recomputing the activity dimension of one job from its spans. */
module ActivityBackfill {
  import opened Common
  import opened Ledger
  import opened ActivitySplit
  import opened Spans

  function OneCall(s: Span): Bucket { ZERO.(calls := 1) }

  /** A span's own tool call, appended. */
  function WithTool(tools: seq<Tool<string>>, s: Span): seq<Tool<string>> {
    if IsTool(s) then tools + [Tool(s.activity, s.weight)] else tools
  }

  /** The tool calls of a turn, in span order. */
  function ToolsOf(spans: seq<Span>, t: int): seq<Tool<string>> {
    if spans == [] then []
    else
      var tools, last := ToolsOf(spans[..|spans| - 1], t), spans[|spans| - 1];
      if InTurn(last, t) then WithTool(tools, last) else tools
  }

  /** A turn gets a context from any LLM span, tool span or phase. */
  predicate HasContext(spans: seq<Span>, t: int) {
    exists i :: 0 <= i < |spans| && InTurn(spans[i], t) && (IsLlm(spans[i]) || IsTool(spans[i]) || HasPhase(spans[i]))
  }

  /** The contexts built from a list of spans; turns in the order in which their contexts are created. */
  ghost predicate ContextsOf(spans: seq<Span>, order: seq<int>, tools: map<int, seq<Tool<string>>>) {
    && DistinctTurns(order)
    && (forall t :: t in order <==> t in tools)
    && (forall t :: t in tools <==> HasContext(spans, t))
    && (forall t :: ToolsOf(spans, t) == if t in tools then tools[t] else [])
  }

  /** The contexts and costs of all turns. */
  method BuildTurnData(spans: seq<Span>)
    returns (order: seq<int>, tools: map<int, seq<Tool<string>>>, costs: map<int, Bucket>)
    ensures costs == TurnCosts(spans)
    ensures ContextsOf(spans, order, tools)
  {
    order, tools, costs := [], map[], map[];
    for i := 0 to |spans|
      invariant costs == TurnCosts(spans[..i])
      invariant ContextsOf(spans[..i], order, tools)
    {
      TakeOneMore(spans, i);
      TurnCostsMore(spans[..i], spans[i]);
      if spans[i].turn.Some? && spans[i].kind.Llm? { costs := Credit(costs, spans[i].turn.value, Usage(spans[i])); }
      order, tools := AddToContexts(spans[..i], spans[i], order, tools);
    }
    assert spans[..|spans|] == spans;
  }

  method AddToContexts(ghost spans: seq<Span>, span: Span, order0: seq<int>, tools0: map<int, seq<Tool<string>>>)
    returns (order: seq<int>, tools: map<int, seq<Tool<string>>>)
    requires ContextsOf(spans, order0, tools0)
    ensures ContextsOf(spans + [span], order, tools)
  {
    order, tools := order0, tools0;
    if span.turn.Some? {
      var turn := span.turn.value;
      if span.kind.Llm? || span.kind.ToolCall? || HasPhase(span) {
        if turn !in tools { order, tools := order + [turn], tools[turn := []]; }
      }
      if span.kind.ToolCall? { tools := tools[turn := tools[turn] + [Tool(span.activity, span.weight)]]; }
    }
    ContextAdded(spans, span, order0, tools0, order, tools);
  }

  predicate Creates(s: Span) { s.turn.Some? && (IsLlm(s) || IsTool(s) || HasPhase(s)) }

  function OrEmpty(tools: map<int, seq<Tool<string>>>, t: int): seq<Tool<string>> {
    if t in tools then tools[t] else []
  }

  lemma ContextAdded(spans: seq<Span>, s: Span, order0: seq<int>, tools0: map<int, seq<Tool<string>>>,
                     order: seq<int>, tools: map<int, seq<Tool<string>>>)
    requires ContextsOf(spans, order0, tools0)
    requires !Creates(s) ==> order == order0 && tools == tools0
    requires Creates(s) ==>
      && order == (if s.turn.value in tools0 then order0 else order0 + [s.turn.value])
      && tools == tools0[s.turn.value := WithTool(OrEmpty(tools0, s.turn.value), s)]
    ensures ContextsOf(spans + [s], order, tools)
  {
    forall t ensures t in tools <==> HasContext(spans + [s], t) { ContextMore(spans, s, t); }
    forall t ensures ToolsOf(spans + [s], t) == OrEmpty(tools, t) { ToolsMore(spans, s, t); }
  }

  lemma ToolsMore(spans: seq<Span>, s: Span, t: int)
    ensures ToolsOf(spans + [s], t)
         == if InTurn(s, t) then WithTool(ToolsOf(spans, t), s) else ToolsOf(spans, t)
  {
    AppendLast(spans, s);
  }

  lemma ContextMore(spans: seq<Span>, s: Span, t: int)
    ensures HasContext(spans + [s], t) <==>
      HasContext(spans, t) || (InTurn(s, t) && (IsLlm(s) || IsTool(s) || HasPhase(s)))
  {
    var all := spans + [s];
    assert all[|spans|] == s;
    if i :| 0 <= i < |spans| && InTurn(spans[i], t) && (IsLlm(spans[i]) || IsTool(spans[i]) || HasPhase(spans[i])) {
      assert all[i] == spans[i];
    }
  }

  /** A turn's tool calls, wherever the job's spans are cut: each tool span of the turn gives its own label and weight,
      in span order. */
  lemma {:induction false} ToolsInSpanOrder(front: seq<Span>, back: seq<Span>, t: int)
    ensures ToolsOf(front + back, t) == ToolsOf(front, t) + ToolsOf(back, t)
  {
    if back == [] {
      assert front + back == front;
    } else {
      var init, last := back[..|back| - 1], back[|back| - 1];
      assert front + back == (front + init) + [last] && back == init + [last];
      ToolsInSpanOrder(front, init, t);
      ToolsMore(front + init, last, t);
      ToolsMore(init, last, t);
    }
  }

  lemma OneSpanGives(s: Span, t: int)
    ensures ToolsOf([s], t) == if s.kind.ToolCall? && s.turn == Some(t) then [Tool(s.activity, s.weight)] else []
  {
    assert [s][..0] == [];
  }

  // ---- Order of processing ----

  function Insert(x: int, s: seq<int>): (r: seq<int>)
    ensures forall y :: y in r <==> y == x || y in s
  {
    if s == [] || x < s[0] then [x] + s
    else
      assert s == [s[0]] + s[1..];
      [s[0]] + Insert(x, s[1..])
  }

  lemma {:induction false} InsertAscending(x: int, s: seq<int>)
    requires x !in s && Ascending(s)
    ensures Ascending(Insert(x, s))
  {
    if s != [] && !(x < s[0]) {
      var r := Insert(x, s[1..]);
      InsertAscending(x, s[1..]);
      forall i | 0 <= i < |r| ensures s[0] < r[i] {
        if r[i] != x {
          assert r[i] in r && r[i] in s[1..];
          var j :| 0 <= j < |s[1..]| && s[1..][j] == r[i];
          assert s[j + 1] == r[i];
        }
      }
    }
  }

  predicate Ascending(s: seq<int>) {
    forall i, j | 0 <= i < j < |s| :: s[i] < s[j]
  }

  /** `sorted` of distinct turn numbers. */
  function Sorted(s: seq<int>): (r: seq<int>)
    ensures forall y :: y in r <==> y in s
    ensures DistinctTurns(s) ==> Ascending(r)
  {
    if s == [] then []
    else
      assert s == [s[0]] + s[1..];
      var rest := Sorted(s[1..]);
      assert DistinctTurns(s) ==> Ascending(Insert(s[0], rest)) by {
        if DistinctTurns(s) { InsertAscending(s[0], rest); }
      }
      Insert(s[0], rest)
  }

  // ---- Totals ----

  function SumCalls(turns: seq<int>, spans: seq<Span>): nat {
    if turns == [] then 0 else SumCalls(turns[..|turns| - 1], spans) + Calls(ToolsOf(spans, turns[|turns| - 1]))
  }

  function SumLoss(turns: seq<int>, spans: seq<Span>): nat {
    if turns == [] then 0 else SumLoss(turns[..|turns| - 1], spans) + MaxLoss(ToolsOf(spans, turns[|turns| - 1]))
  }

  /** What the listed turns put in. */
  function Given(turns: seq<int>, spans: seq<Span>): Bucket {
    SumOver(turns, TurnCosts(spans)).(calls := SumCalls(turns, spans))
  }

  lemma LosesAdd(g: Bucket, r: Bucket, n: nat, x: Bucket, r': Bucket, m: nat)
    requires Loses(g, r, n) && Loses(Add(r, x), r', m)
    ensures Loses(Add(g, x), r', n + m)
  {
  }

  lemma GivenMore(turns: seq<int>, i: nat, spans: seq<Span>)
    requires i < |turns|
    ensures Given(turns[..i + 1], spans)
         == Add(Given(turns[..i], spans), Get(TurnCosts(spans), turns[i]).(calls := Calls(ToolsOf(spans, turns[i]))))
    ensures SumLoss(turns[..i + 1], spans) == SumLoss(turns[..i], spans) + MaxLoss(ToolsOf(spans, turns[i]))
  {
    assert turns[..i + 1][..i] == turns[..i];
  }

  /** The buckets after splitting the listed turns in order. */
  function CreditTurns(turns: seq<int>, spans: seq<Span>, intent: int -> string): map<string, Bucket> {
    if turns == [] then map[]
    else
      var t := turns[|turns| - 1];
      CreditTurn(CreditTurns(turns[..|turns| - 1], spans, intent), ToolsOf(spans, t), Get(TurnCosts(spans), t),
          intent(t))
  }

  lemma CreditTurnsMore(turns: seq<int>, i: nat, spans: seq<Span>, intent: int -> string)
    requires i < |turns|
    ensures CreditTurns(turns[..i + 1], spans, intent)
         == CreditTurn(CreditTurns(turns[..i], spans, intent), ToolsOf(spans, turns[i]),
             Get(TurnCosts(spans), turns[i]), intent(turns[i]))
  {
    assert turns[..i + 1][..i] == turns[..i];
  }

  /** Cost and calls are conserved exactly, and each token column up to flooring, whatever label a turn without tools
      receives. */
  lemma {:induction false} SplittingConserves(turns: seq<int>, spans: seq<Span>, intent: int -> string)
    ensures Loses(Given(turns, spans), Total(CreditTurns(turns, spans, intent)), SumLoss(turns, spans))
  {
    if turns != [] {
      var init, t := turns[..|turns| - 1], turns[|turns| - 1];
      var table, tools, cost := CreditTurns(init, spans, intent), ToolsOf(spans, t), Get(TurnCosts(spans), t);
      SplittingConserves(init, spans, intent);
      assert turns[..|init|] == init && turns[..|init| + 1] == turns;
      GivenMore(turns, |init|, spans);
      TurnConserves(table, tools, cost, intent(t));
      LosesAdd(Given(init, spans), Total(table), SumLoss(init, spans), cost.(calls := Calls(tools)),
               Total(CreditTurn(table, tools, cost, intent(t))), MaxLoss(tools));
    }
  }

  /** The activity buckets of a job: its turns with a context, in ascending order, are split one after the other. */
  method BackfillActivities(spans: seq<Span>, intent: int -> string)
    returns (table: map<string, Bucket>, turns: seq<int>)
    ensures Ascending(turns) && forall t :: t in turns <==> HasContext(spans, t)
    ensures table == CreditTurns(turns, spans, intent)
    ensures Loses(Given(turns, spans), Total(table), SumLoss(turns, spans))
  {
    var order, tools, costs := BuildTurnData(spans);
    turns := Sorted(order);
    table := map[];
    for i := 0 to |turns|
      invariant table == CreditTurns(turns[..i], spans, intent)
    {
      var t := turns[i];
      assert t in turns;
      CreditTurnsMore(turns, i, spans, intent);
      table := SplitTurn(table, tools[t], Get(costs, t), intent(t));
    }
    assert turns[..|turns|] == turns;
    SplittingConserves(turns, spans, intent);
  }

  // ---- In terms of the spans ----

  function ToolSpans(spans: seq<Span>): nat {
    if spans == [] then 0
    else ToolSpans(spans[..|spans| - 1]) + if IsTool(spans[|spans| - 1]) && spans[|spans| - 1].turn.Some? then 1 else 0
  }

  function WithoutTools(turns: seq<int>, spans: seq<Span>): nat {
    if turns == [] then 0
    else WithoutTools(turns[..|turns| - 1], spans) + if ToolsOf(spans, turns[|turns| - 1]) == [] then 1 else 0
  }

  lemma {:induction false} ToolsCounted(spans: seq<Span>, t: int)
    ensures Get(CreditSpans(spans, IsTool, OneCall), t).calls == |ToolsOf(spans, t)|
  {
    if spans != [] {
      var init, last := spans[..|spans| - 1], spans[|spans| - 1];
      ToolsCounted(init, t);
      if last.turn.Some? && IsTool(last) {
        GetCredit(CreditSpans(init, IsTool, OneCall), last.turn.value, OneCall(last), t);
      }
    }
  }

  lemma {:induction false} CallsSplit(turns: seq<int>, spans: seq<Span>)
    ensures SumCalls(turns, spans) == SumOver(turns, CreditSpans(spans, IsTool, OneCall)).calls +
        WithoutTools(turns, spans)
  {
    if turns != [] {
      CallsSplit(turns[..|turns| - 1], spans);
      ToolsCounted(spans, turns[|turns| - 1]);
    }
  }

  lemma {:induction false} CountToolSpans(spans: seq<Span>, p: int -> bool)
    requires forall i | 0 <= i < |spans| && IsTool(spans[i]) && spans[i].turn.Some? :: p(spans[i].turn.value)
    ensures SumOf(spans, Selected(IsTool, OneCall, p)).calls == ToolSpans(spans)
  {
    if spans != [] { CountToolSpans(spans[..|spans| - 1], p); }
  }

  /** What the turns with a context put in: the usage of every LLM span with a turn number, one call per tool span
      with a turn number, and one per turn without tools. */
  lemma GivenBySpans(spans: seq<Span>, turns: seq<int>)
    requires Ascending(turns) && forall t :: t in turns <==> HasContext(spans, t)
    ensures Given(turns, spans) == LlmUsage(spans, Anything()).(calls := ToolSpans(spans) + WithoutTools(turns, spans))
  {
    var p := t => t in turns;
    forall i | 0 <= i < |spans| && (IsLlm(spans[i]) || IsTool(spans[i])) && spans[i].turn.Some?
      ensures p(spans[i].turn.value)
    {
      assert InTurn(spans[i], spans[i].turn.value);
    }
    TurnCostsAddUp(spans, turns);
    SelectedUsage(spans, p, Anything());
    CallsSplit(turns, spans);
    SumOverIsTotal(turns, CreditSpans(spans, IsTool, OneCall), p);
    CreditSpansTotal(spans, IsTool, OneCall, p);
    CountToolSpans(spans, p);
  }
}
