/** Telemetry spans of a job, the cost they put on each turn, and grouping of turns under labels. */
module Spans {
  import opened Common
  import opened Ledger
  import opened ActivitySplit

  datatype Kind = Llm | ToolCall | OtherSpan

  /** What the classifiers' patterns say about one shell command. */
  datatype ShellCommand = ShellCommand(isTest: bool, isGitWrite: bool, isGitRead: bool, isReadOnly: bool)

  /** `category` and `activity` are the labels that the tool classifiers give a tool span. */
  datatype Span = Span(turn: Option<int>, kind: Kind, usage: Bucket, category: string, command: Option<ShellCommand>,
                       activity: string, weight: nat, phase: Option<string>)

  predicate InTurn(s: Span, t: int) { s.turn == Some(t) }

  /** A default dictionary over turns, to which each selected span adds its quantity. */
  function CreditSpans(spans: seq<Span>, sel: Span -> bool, w: Span -> Bucket): map<int, Bucket> {
    if spans == [] then map[]
    else
      var m, last := CreditSpans(spans[..|spans| - 1], sel, w), spans[|spans| - 1];
      if last.turn.Some? && sel(last) then Credit(m, last.turn.value, w(last)) else m
  }

  /** A quantity, counted for selected spans of selected turns only. */
  function Selected(sel: Span -> bool, w: Span -> Bucket, p: int -> bool): Span -> Bucket {
    (s: Span) => if s.turn.Some? && sel(s) && p(s.turn.value) then w(s) else ZERO
  }

  lemma {:induction false} CreditSpansTotal(spans: seq<Span>, sel: Span -> bool, w: Span -> Bucket, p: int -> bool)
    ensures Total(Where(CreditSpans(spans, sel, w), p))
         == SumOf(spans, Selected(sel, w, p))
  {
    var q := Selected(sel, w, p);
    if spans == [] {
      assert Where(CreditSpans(spans, sel, w), p) == map[];
    } else {
      var init, last := spans[..|spans| - 1], spans[|spans| - 1];
      CreditSpansTotal(init, sel, w, p);
      if last.turn.Some? && sel(last) {
        TotalWhereCredit(CreditSpans(init, sel, w), last.turn.value, w(last), p);
      }
      AddSwap(SumOf(init, q), ZERO, ZERO);
    }
  }

  function IsLlm(s: Span): bool { s.kind.Llm? }
  function IsTool(s: Span): bool { s.kind.ToolCall? }

  predicate HasPhase(s: Span) { s.phase.Some? && s.phase.value != "" }

  function Usage(s: Span): Bucket { s.usage.(calls := 0) }

  /** `turn_costs`: the usage of the LLM spans of each turn. */
  function TurnCosts(spans: seq<Span>): map<int, Bucket> {
    CreditSpans(spans, IsLlm, Usage)
  }

  lemma TurnCostsMore(spans: seq<Span>, s: Span)
    ensures TurnCosts(spans + [s])
         == if s.turn.Some? && IsLlm(s) then Credit(TurnCosts(spans), s.turn.value, Usage(s)) else TurnCosts(spans)
  {
    AppendLast(spans, s);
  }

  /** The LLM usage of the spans whose turn is selected. */
  function LlmUsage(spans: seq<Span>, p: int -> bool): Bucket {
    SumOf(spans, Selected(IsLlm, Usage, p))
  }

  lemma {:induction false} SelectedUsage(spans: seq<Span>, p: int -> bool, q: int -> bool)
    requires forall i | 0 <= i < |spans| && IsLlm(spans[i]) && spans[i].turn.Some? ::
      p(spans[i].turn.value) <==> q(spans[i].turn.value)
    ensures LlmUsage(spans, p) == LlmUsage(spans, q)
  {
    if spans != [] { SelectedUsage(spans[..|spans| - 1], p, q); }
  }

  ghost predicate DistinctTurns(turns: seq<int>) {
    forall i, j | 0 <= i < j < |turns| :: turns[i] != turns[j]
  }

  /** The costs of the listed turns add up to the LLM usage of their spans. */
  lemma TurnCostsAddUp(spans: seq<Span>, turns: seq<int>)
    requires DistinctTurns(turns)
    ensures SumOver(turns, TurnCosts(spans)) == LlmUsage(spans, t => t in turns)
  {
    var p := t => t in turns;
    SumOverIsTotal(turns, TurnCosts(spans), p);
    CreditSpansTotal(spans, IsLlm, Usage, p);
  }

  // ---- Grouping turns under labels ----

  /** One call with the cost of a turn. */
  function TurnCharge(costs: map<int, Bucket>, t: int): Bucket {
    Get(costs, t).(calls := 1)
  }

  /** The buckets of a label dictionary after charging the listed turns in order. */
  function GroupBy<L(==)>(turns: seq<int>, costs: map<int, Bucket>, labelOf: int -> L): map<L, Bucket> {
    if turns == [] then map[]
    else
      var t := turns[|turns| - 1];
      Credit(GroupBy(turns[..|turns| - 1], costs, labelOf), labelOf(t), TurnCharge(costs, t))
  }

  lemma GroupMore<L>(turns: seq<int>, t: int, costs: map<int, Bucket>, labelOf: int -> L)
    ensures GroupBy(turns + [t], costs, labelOf) == Credit(GroupBy(turns, costs, labelOf), labelOf(t),
        TurnCharge(costs, t))
  {
    AppendLast(turns, t);
  }

  /** The sum of the charges of the selected turns. */
  function SumCharges(turns: seq<int>, costs: map<int, Bucket>, p: int -> bool): Bucket {
    if turns == [] then ZERO
    else
      var t, rest := turns[|turns| - 1], SumCharges(turns[..|turns| - 1], costs, p);
      if p(t) then Add(rest, TurnCharge(costs, t)) else rest
  }

  /** The turns whose label is selected. */
  function Labelled<L>(labelOf: int -> L, p: L -> bool): int -> bool {
    (t: int) => p(labelOf(t))
  }

  function Equal<L(==)>(a: L): L -> bool { (x: L) => x == a }

  /** Summing any selection of labels is summing the turns that carry them. */
  lemma {:induction false} GroupTotal<L(!new)>(turns: seq<int>, costs: map<int, Bucket>, labelOf: int -> L,
                                        p: L -> bool)
    ensures Total(Where(GroupBy(turns, costs, labelOf), p)) == SumCharges(turns, costs, Labelled(labelOf, p))
  {
    if turns == [] {
      assert Where(GroupBy(turns, costs, labelOf), p) == map[];
    } else {
      var init, t := turns[..|turns| - 1], turns[|turns| - 1];
      GroupTotal(init, costs, labelOf, p);
      TotalWhereCredit(GroupBy(init, costs, labelOf), labelOf(t), TurnCharge(costs, t), p);
    }
  }

  lemma {:induction false} SameCharges(turns: seq<int>, costs: map<int, Bucket>, p: int -> bool, q: int -> bool)
    requires forall t | t in turns :: p(t) <==> q(t)
    ensures SumCharges(turns, costs, p) == SumCharges(turns, costs, q)
  {
    if turns != [] {
      assert turns == turns[..|turns| - 1] + [turns[|turns| - 1]];
      SameCharges(turns[..|turns| - 1], costs, p, q);
    }
  }

  lemma SingleBucket<L(!new)>(m: map<L, Bucket>, key: L)
    ensures Total(Where(m, Equal(key))) == Get(m, key)
  {
    var w := Where(m, Equal(key));
    if key in m {
      TotalWithout(w, key);
      assert w - {key} == map[];
      AddSwap(m[key], ZERO, ZERO);
    } else {
      assert w == map[];
    }
  }

  /** A label's bucket is the charge of the turns that carry it. */
  lemma BucketIsItsTurns<L(!new)>(turns: seq<int>, costs: map<int, Bucket>, labelOf: int -> L, key: L)
    ensures Get(GroupBy(turns, costs, labelOf), key) == SumCharges(turns, costs, Labelled(labelOf, Equal(key)))
  {
    SingleBucket(GroupBy(turns, costs, labelOf), key);
    GroupTotal(turns, costs, labelOf, Equal(key));
  }

  /** What the LLM spans of the selected turns have recorded as used, column by column. */
  function Recorded(spans: seq<Span>, p: int -> bool): Bucket {
    if spans == [] then ZERO
    else
      var rest, s := Recorded(spans[..|spans| - 1], p), spans[|spans| - 1];
      if s.kind.Llm? && s.turn.Some? && p(s.turn.value) then Add(rest, s.usage) else rest
  }

  lemma WithoutCalls(a: Bucket, b: Bucket)
    ensures Add(a.(calls := 0), b.(calls := 0)) == Add(a, b).(calls := 0)
    ensures Add(a, ZERO) == a
  {
  }

  /** The usage that is attributed is what the spans recorded, the same column in the same column; a span's usage is no
      call. */
  lemma {:induction false} LlmUsageIsRecorded(spans: seq<Span>, p: int -> bool)
    ensures LlmUsage(spans, p) == Recorded(spans, p).(calls := 0)
  {
    if spans != [] {
      var init, s := spans[..|spans| - 1], spans[|spans| - 1];
      hide Add;
      LlmUsageIsRecorded(init, p);
      WithoutCalls(Recorded(init, p), s.usage);
      WithoutCalls(LlmUsage(init, p), s.usage);
    }
  }

  /** A turn's bucket holds what the LLM spans of that turn recorded. */
  lemma TurnCostsAreRecorded(spans: seq<Span>, t: int)
    ensures Get(TurnCosts(spans), t) == Recorded(spans, Equal(t)).(calls := 0)
  {
    SingleBucket(TurnCosts(spans), t);
    CreditSpansTotal(spans, IsLlm, Usage, Equal(t));
    LlmUsageIsRecorded(spans, Equal(t));
  }

  /** The listed turns that are selected. */
  function Chosen(turns: seq<int>, p: int -> bool): (r: seq<int>)
    ensures forall t :: t in r <==> t in turns && p(t)
    ensures (forall i, j | 0 <= i < j < |turns| :: turns[i] != turns[j])
        ==> forall i, j | 0 <= i < j < |r| :: r[i] != r[j]
  {
    if turns == [] then []
    else
      var t, rest := turns[|turns| - 1], Chosen(turns[..|turns| - 1], p);
      assert turns == turns[..|turns| - 1] + [t];
      if p(t) then rest + [t] else rest
  }

  lemma {:induction false} ChargesOfChosen(turns: seq<int>, costs: map<int, Bucket>, p: int -> bool)
    ensures SumCharges(turns, costs, p) == SumOver(Chosen(turns, p), costs).(calls := |Chosen(turns, p)|)
  {
    if turns != [] {
      ChargesOfChosen(turns[..|turns| - 1], costs, p);
      AppendLast(Chosen(turns[..|turns| - 1], p), turns[|turns| - 1]);
    }
  }

  /** A selection of fine labels that matches one coarse label sums to the coarse label's bucket. */
  lemma FineSumsToCoarse<L(!new), M(!new)>(turns: seq<int>, costs: map<int, Bucket>, fine: int -> L, coarse: int -> M,
                                           p: L -> bool, key: M)
    requires forall t | t in turns :: p(fine(t)) <==> coarse(t) == key
    ensures Total(Where(GroupBy(turns, costs, fine), p)) == Get(GroupBy(turns, costs, coarse), key)
  {
    GroupTotal(turns, costs, fine, p);
    BucketIsItsTurns(turns, costs, coarse, key);
    SameCharges(turns, costs, Labelled(fine, p), Labelled(coarse, Equal(key)));
  }

  lemma {:induction false} AllCharges(turns: seq<int>, costs: map<int, Bucket>, p: int -> bool)
    requires forall t :: p(t)
    ensures SumCharges(turns, costs, p) == SumOver(turns, costs).(calls := |turns|)
  {
    if turns != [] { AllCharges(turns[..|turns| - 1], costs, p); }
  }

  function Anything<L>(): L -> bool { (x: L) => true }

  lemma WhereAnything<L(!new)>(m: map<L, Bucket>)
    ensures Where(m, Anything()) == m
  {
  }

  /** Whatever the labels, the buckets add up to the costs of the turns, one call each. */
  lemma GrandTotal<L(!new)>(turns: seq<int>, costs: map<int, Bucket>, labelOf: int -> L)
    ensures Total(GroupBy(turns, costs, labelOf)) == SumOver(turns, costs).(calls := |turns|)
  {
    WhereAnything(GroupBy(turns, costs, labelOf));
    GroupTotal(turns, costs, labelOf, Anything());
    AllCharges(turns, costs, Labelled(labelOf, Anything()));
  }
}
