/** Proportional splitting of a turn's cost over the activities of its tool calls. */
module ActivitySplit {
  import opened Ledger

  /** One tool call of a turn: its activity label and the weight of its arguments. */
  datatype Tool<A> = Tool(activity: A, weight: nat)

  /** Activity labels in order of first appearance. */
  function Names<A(==, !new)>(tools: seq<Tool<A>>): (r: seq<A>)
    ensures forall a :: a in r <==> exists i :: 0 <= i < |tools| && tools[i].activity == a
    ensures forall i, j | 0 <= i < j < |r| :: r[i] != r[j]
    ensures tools != [] ==> r != []
  {
    if tools == [] then []
    else
      var r, last := Names(tools[..|tools| - 1]), tools[|tools| - 1].activity;
      if last in r then r else r + [last]
  }

  function WeightOf<A(==, !new)>(tools: seq<Tool<A>>, a: A): nat {
    if tools == [] then 0
    else WeightOf(tools[..|tools| - 1], a) + if tools[|tools| - 1].activity == a then tools[|tools| - 1].weight else 0
  }

  function CountOf<A(==, !new)>(tools: seq<Tool<A>>, a: A): nat {
    if tools == [] then 0
    else CountOf(tools[..|tools| - 1], a) + if tools[|tools| - 1].activity == a then 1 else 0
  }

  function TotalWeight<A(==, !new)>(tools: seq<Tool<A>>): nat {
    if tools == [] then 0 else TotalWeight(tools[..|tools| - 1]) + tools[|tools| - 1].weight
  }

  /** The common denominator of a turn's fractions, and what each activity has above it. */
  function Denominator<A(==, !new)>(tools: seq<Tool<A>>): (d: nat)
    requires tools != []
    ensures d > 0
  {
    if TotalWeight(tools) > 0 then TotalWeight(tools) else |Names(tools)|
  }

  function Numerator<A(==, !new)>(tools: seq<Tool<A>>, a: A): nat {
    if TotalWeight(tools) > 0 then WeightOf(tools, a) else 1
  }

  /** An activity's part of the turn: by weight, or in equal parts when all weights are zero. */
  function Fraction<A(==, !new)>(tools: seq<Tool<A>>, a: A): real
    requires tools != []
  {
    Ratio(Numerator(tools, a), Denominator(tools))
  }

  function Ratio(n: nat, d: nat): (r: real)
    requires d > 0
    ensures r * d as real == n as real
  {
    n as real / d as real
  }

  function Part(x: real, fraction: real): real { x * fraction }

  /** `int(tokens * fraction)` of a non-negative product. */
  function Share(tokens: int, fraction: real): int {
    Part(tokens as real, fraction).Floor
  }

  /** The columns of a turn's cost that a fraction of it amounts to. */
  function FractionalCost(cost: Bucket, f: real): Bucket {
    Bucket(Part(cost.cost, f), Share(cost.input, f), Share(cost.output, f), Share(cost.cacheRead, f),
        Share(cost.cacheWrite, f), 0)
  }

  /** What one activity receives of a turn. */
  function Portion<A(==, !new)>(tools: seq<Tool<A>>, cost: Bucket, a: A): Bucket
    requires tools != []
  {
    FractionalCost(cost, Fraction(tools, a)).(calls := CountOf(tools, a))
  }

  function CreditAll<A(==, !new)>(table: map<A, Bucket>, names: seq<A>, tools: seq<Tool<A>>, cost: Bucket)
    : map<A, Bucket>
    requires tools != []
  {
    if names == [] then table
    else
      var a := names[|names| - 1];
      Credit(CreditAll(table, names[..|names| - 1], tools, cost), a, Portion(tools, cost, a))
  }

  /** The buckets after one turn; a turn without tools goes to a single activity as one call. */
  function CreditTurn<A(==, !new)>(table: map<A, Bucket>, tools: seq<Tool<A>>, cost: Bucket, intent: A)
    : map<A, Bucket>
  {
    if tools == [] then Credit(table, intent, cost.(calls := 1)) else CreditAll(table, Names(tools), tools, cost)
  }

  datatype Groups<A> = Groups(names: seq<A>, sums: map<A, nat>, counts: map<A, nat>, total: nat)

  function Zero<A(==)>(m: map<A, nat>, a: A): nat { if a in m then m[a] else 0 }

  /** What the grouping loop has collected from a list of tool calls. */
  ghost predicate Grouped<A(!new)>(tools: seq<Tool<A>>, g: Groups<A>) {
    && g.names == Names(tools)
    && g.total == TotalWeight(tools)
    && (forall a :: (a in g.sums <==> a in g.names) && (a in g.counts <==> a in g.names))
    && (forall a :: WeightOf(tools, a) == Zero(g.sums, a))
    && (forall a :: CountOf(tools, a) == Zero(g.counts, a))
  }

  function AddTool<A(==)>(g: Groups<A>, tool: Tool<A>): Groups<A> {
    var a := tool.activity;
    Groups(if a in g.names then g.names else g.names + [a], g.sums[a := Zero(g.sums, a) + tool.weight],
           g.counts[a := Zero(g.counts, a) + 1], g.total + tool.weight)
  }

  lemma GroupedMore<A(!new)>(tools: seq<Tool<A>>, i: nat, g: Groups<A>)
    requires i < |tools| && Grouped(tools[..i], g)
    ensures Grouped(tools[..i + 1], AddTool(g, tools[i]))
  {
    var all := tools[..i + 1];
    assert all[..i] == tools[..i];
    var h := AddTool(g, tools[i]);
    forall a ensures WeightOf(all, a) == Zero(h.sums, a) { assert WeightOf(tools[..i], a) == Zero(g.sums, a); }
    forall a ensures CountOf(all, a) == Zero(h.counts, a) { assert CountOf(tools[..i], a) == Zero(g.counts, a); }
  }

  /** Grouping of a turn's tool calls by activity. */
  method GroupWeights<A(==, !new)>(tools: seq<Tool<A>>) returns (g: Groups<A>)
    ensures Grouped(tools, g)
  {
    g := Groups([], map[], map[], 0);
    for i := 0 to |tools|
      invariant Grouped(tools[..i], g)
    {
      GroupedMore(tools, i, g);
      g := AddTool(g, tools[i]);
    }
    assert tools[..|tools|] == tools;
  }

  /** `_accumulate`: adds the columns of `source` and counts one call. */
  function Accumulate(target: Bucket, source: Bucket): Bucket {
    Add(target, source.(calls := 1))
  }

  lemma GroupedFraction<A(!new)>(tools: seq<Tool<A>>, g: Groups<A>, a: A)
    requires tools != [] && Grouped(tools, g) && a in g.names
    ensures a in g.sums && a in g.counts && g.counts[a] == CountOf(tools, a)
    ensures Fraction(tools, a) == if g.total > 0 then Ratio(g.sums[a], g.total) else Ratio(1, |g.names|)
  {
    assert WeightOf(tools, a) == Zero(g.sums, a) && CountOf(tools, a) == Zero(g.counts, a);
  }

  method SplitTurn<A(==, !new)>(table0: map<A, Bucket>, tools: seq<Tool<A>>, cost: Bucket, intent: A)
    returns (table: map<A, Bucket>)
    ensures table == CreditTurn(table0, tools, cost, intent)
  {
    if tools == [] {
      table := table0[intent := Accumulate(Get(table0, intent), cost)];
    } else {
      var g := GroupWeights(tools);
      table := CreditGroups(table0, tools, g, cost);
    }
  }

  method CreditGroups<A(==, !new)>(table0: map<A, Bucket>, ghost tools: seq<Tool<A>>, g: Groups<A>, cost: Bucket)
    returns (table: map<A, Bucket>)
    requires tools != [] && Grouped(tools, g)
    ensures table == CreditAll(table0, Names(tools), tools, cost)
  {
    table := table0;
    for i := 0 to |g.names|
      invariant table == CreditAll(table0, g.names[..i], tools, cost)
    {
      var a := g.names[i];
      CreditAllMore(table0, g.names, i, tools, cost);
      GroupedFraction(tools, g, a);
      var fraction := if g.total > 0 then Ratio(g.sums[a], g.total) else Ratio(1, |g.names|);
      table := CreditActivity(table, a, cost, fraction, g.counts[a]);
    }
    assert g.names[..|g.names|] == g.names;
  }

  method CreditActivity<A(==)>(table0: map<A, Bucket>, a: A, cost: Bucket, fraction: real, count: nat)
    returns (table: map<A, Bucket>)
    ensures table == Credit(table0, a, FractionalCost(cost, fraction).(calls := count))
  {
    var credited := Accumulate(Get(table0, a), FractionalCost(cost, fraction));
    var calls: int := credited.calls + count - 1;  // Accumulate has counted one call already
    table := table0[a := credited.(calls := calls)];
  }

  lemma CreditAllMore<A(!new)>(table: map<A, Bucket>, names: seq<A>, i: nat, tools: seq<Tool<A>>, cost: Bucket)
    requires tools != [] && i < |names|
    ensures CreditAll(table, names[..i + 1], tools, cost)
         == Credit(CreditAll(table, names[..i], tools, cost), names[i], Portion(tools, cost, names[i]))
  {
    assert names[..i + 1][..i] == names[..i];
  }

  // ---- What one activity receives ----

  lemma {:induction false} CreditAllGet<A(!new)>(table: map<A, Bucket>, names: seq<A>, tools: seq<Tool<A>>,
                                          cost: Bucket, a: A)
    requires tools != [] && forall i, j | 0 <= i < j < |names| :: names[i] != names[j]
    ensures Get(CreditAll(table, names, tools, cost), a)
         == if a in names then Add(Get(table, a), Portion(tools, cost, a)) else Get(table, a)
  {
    if names != [] {
      var init, last := names[..|names| - 1], names[|names| - 1];
      assert names == init + [last];
      CreditAllGet(table, init, tools, cost, a);
      GetCredit(CreditAll(table, init, tools, cost), last, Portion(tools, cost, last), a);
    }
  }

  /** `part` is the fraction n / d of `whole`. */
  ghost predicate IsPart(part: real, whole: real, n: nat, d: nat) { part * d as real == whole * n as real }

  lemma PartOfRatio(whole: real, n: nat, d: nat)
    requires d > 0
    ensures IsPart(Part(whole, Ratio(n, d)), whole, n, d)
  {
    Reassociate(whole, Ratio(n, d), d as real);
  }

  lemma Reassociate(x: real, y: real, z: real)
    ensures x * y * z == x * (y * z)
  {
  }

  /** `part` is the fraction n / d of `whole`, rounded down. */
  ghost predicate IsFlooredPart(part: int, whole: int, n: nat, d: nat) { part * d <= whole * n < (part + 1) * d }

  lemma Positive(x: real, y: real)
    requires x > 0.0 && y > 0.0
    ensures x * y > 0.0
  {
  }

  lemma Scale(x: real, y: real, d: real)
    requires d > 0.0
    ensures x <= y ==> x * d <= y * d
    ensures x < y ==> x * d < y * d
  {
    if x < y {
      Positive(y - x, d);
      assert (y - x) * d == y * d - x * d;
    }
  }

  lemma ScaleParts(x: real, y: real, d: real)
    requires d > 0.0
    ensures x <= y ==> Part(x, d) <= Part(y, d)
    ensures x < y ==> Part(x, d) < Part(y, d)
  {
    Scale(x, y, d);
  }

  lemma PartCast(a: int, b: int)
    ensures Part(a as real, b as real) == (a * b) as real
  {
  }

  lemma PartOfPart(x: real, n: nat, d: nat)
    requires d > 0
    ensures Part(Part(x, Ratio(n, d)), d as real) == Part(x, n as real)
  {
    Reassociate(x, Ratio(n, d), d as real);
  }

  lemma ShareBounds(tokens: int, f: real)
    ensures Share(tokens, f) as real <= Part(tokens as real, f) < (Share(tokens, f) + 1) as real
  {
  }

  lemma FlooredShare(tokens: int, n: nat, d: nat)
    requires d > 0
    ensures IsFlooredPart(Share(tokens, Ratio(n, d)), tokens, n, d)
  {
    hide Part, Share, Ratio;
    var exact, s := Part(tokens as real, Ratio(n, d)), Share(tokens, Ratio(n, d));
    ShareBounds(tokens, Ratio(n, d));
    ScaleParts(s as real, exact, d as real);
    ScaleParts(exact, (s + 1) as real, d as real);
    PartOfPart(tokens as real, n, d);
    PartCast(tokens, n);
    PartCast(s, d);
    PartCast(s + 1, d);
  }

  /** What an activity of weight `n` out of `d` receives. */
  ghost predicate IsPortion(portion: Bucket, cost: Bucket, n: nat, d: nat, calls: int) {
    && IsPart(portion.cost, cost.cost, n, d)
    && IsFlooredPart(portion.input, cost.input, n, d)
    && IsFlooredPart(portion.output, cost.output, n, d)
    && IsFlooredPart(portion.cacheRead, cost.cacheRead, n, d)
    && IsFlooredPart(portion.cacheWrite, cost.cacheWrite, n, d)
    && portion.calls == calls
  }

  /** A turn raises the bucket of each of its activities, and of no other, by its number of calls, by a cost in
      proportion to its weight and by as many tokens rounded down; with no weight at all the activities share
      equally. */
  lemma ActivityReceives<A(!new)>(table: map<A, Bucket>, tools: seq<Tool<A>>, cost: Bucket, intent: A, a: A)
    requires tools != []
    ensures a !in Names(tools) ==> Get(CreditTurn(table, tools, cost, intent), a) == Get(table, a)
    ensures a in Names(tools) ==>
      exists portion: Bucket ::
        && Get(CreditTurn(table, tools, cost, intent), a) == Add(Get(table, a), portion)
        && (TotalWeight(tools) > 0 ==>
              IsPortion(portion, cost, WeightOf(tools, a), TotalWeight(tools), CountOf(tools, a)))
        && (TotalWeight(tools) == 0 ==> IsPortion(portion, cost, 1, |Names(tools)|, CountOf(tools, a)))
  {
    hide IsPortion, Portion, CreditTurn;
    WithTools(table, tools, cost, intent);
    CreditAllGet(table, Names(tools), tools, cost, a);
    PortionIsProportional(tools, cost, a);
  }

  /** A turn without tools is one call of one activity, with its whole cost. */
  lemma ToollessTurn<A(!new)>(table: map<A, Bucket>, cost: Bucket, intent: A, a: A)
    ensures Get(CreditTurn(table, [], cost, intent), a)
         == if a == intent then Add(Get(table, a), cost.(calls := 1)) else Get(table, a)
  {
  }

  /** Weights and counts add up over the tool calls: each gives its own weight, and one call, to its own activity. */
  lemma {:induction false} WeightsAddUp<A(!new)>(front: seq<Tool<A>>, back: seq<Tool<A>>, a: A)
    ensures WeightOf(front + back, a) == WeightOf(front, a) + WeightOf(back, a)
    ensures CountOf(front + back, a) == CountOf(front, a) + CountOf(back, a)
    ensures TotalWeight(front + back) == TotalWeight(front) + TotalWeight(back)
  {
    if back == [] {
      assert front + back == front;
    } else {
      var init := back[..|back| - 1];
      assert (front + back)[..|front + back| - 1] == front + init;
      WeightsAddUp(front, init, a);
    }
  }

  lemma OneToolWeighs<A(!new)>(tool: Tool<A>, a: A)
    ensures WeightOf([tool], a) == if a == tool.activity then tool.weight else 0
    ensures CountOf([tool], a) == if a == tool.activity then 1 else 0
    ensures TotalWeight([tool]) == tool.weight
  {
  }

  lemma PortionIsProportional<A(!new)>(tools: seq<Tool<A>>, cost: Bucket, a: A)
    requires tools != []
    ensures IsPortion(Portion(tools, cost, a), cost, Numerator(tools, a), Denominator(tools), CountOf(tools, a))
  {
    hide IsPart, IsFlooredPart, Share, Part, Ratio;
    var n, d := Numerator(tools, a), Denominator(tools);
    PartOfRatio(cost.cost, n, d);
    FlooredShare(cost.input, n, d);
    FlooredShare(cost.output, n, d);
    FlooredShare(cost.cacheRead, n, d);
    FlooredShare(cost.cacheWrite, n, d);
  }

  lemma WithTools<A(!new)>(table: map<A, Bucket>, tools: seq<Tool<A>>, cost: Bucket, intent: A)
    requires tools != []
    ensures CreditTurn(table, tools, cost, intent) == CreditAll(table, Names(tools), tools, cost)
  {
  }

  // ---- Conservation ----

  /** The sum of what the listed activities receive. */
  function SumPortions<A(==, !new)>(names: seq<A>, tools: seq<Tool<A>>, cost: Bucket): Bucket
    requires tools != []
  {
    if names == [] then ZERO
    else Add(SumPortions(names[..|names| - 1], tools, cost), Portion(tools, cost, names[|names| - 1]))
  }

  lemma {:induction false} CreditAllTotal<A(!new)>(table: map<A, Bucket>, names: seq<A>, tools: seq<Tool<A>>,
                                            cost: Bucket)
    requires tools != []
    ensures Total(CreditAll(table, names, tools, cost)) == Add(Total(table), SumPortions(names, tools, cost))
  {
    if names != [] {
      var init, a := names[..|names| - 1], names[|names| - 1];
      CreditAllTotal(table, init, tools, cost);
      TotalOfCredit(CreditAll(table, init, tools, cost), a, Portion(tools, cost, a));
    }
  }

  function SumWeights<A(==, !new)>(names: seq<A>, tools: seq<Tool<A>>): nat {
    if names == [] then 0 else SumWeights(names[..|names| - 1], tools) + WeightOf(tools, names[|names| - 1])
  }

  function SumCounts<A(==, !new)>(names: seq<A>, tools: seq<Tool<A>>): nat {
    if names == [] then 0 else SumCounts(names[..|names| - 1], tools) + CountOf(tools, names[|names| - 1])
  }

  function SumFractions<A(==, !new)>(names: seq<A>, tools: seq<Tool<A>>): real
    requires tools != []
  {
    if names == [] then 0.0 else SumFractions(names[..|names| - 1], tools) + Fraction(tools, names[|names| - 1])
  }

  /** One more tool call adds its weight and one call to its own activity only. */
  lemma {:induction false} SumsMore<A(!new)>(names: seq<A>, tools: seq<Tool<A>>)
    requires tools != [] && forall i, j | 0 <= i < j < |names| :: names[i] != names[j]
    ensures var last := tools[|tools| - 1];
      && SumWeights(names, tools) == SumWeights(names, tools[..|tools| - 1]) +
          (if last.activity in names then last.weight else 0)
      && SumCounts(names, tools) == SumCounts(names, tools[..|tools| - 1]) + (if last.activity in names then 1 else 0)
  {
    if names != [] {
      SumsMore(names[..|names| - 1], tools);
      assert names == names[..|names| - 1] + [names[|names| - 1]];
    }
  }

  lemma {:induction false} SumsOverNames<A(!new)>(tools: seq<Tool<A>>)
    ensures SumWeights(Names(tools), tools) == TotalWeight(tools) && SumCounts(Names(tools), tools) == |tools|
  {
    if tools != [] {
      var init, a := tools[..|tools| - 1], tools[|tools| - 1].activity;
      SumsOverNames(init);
      SumsMore(Names(tools), tools);
      if a !in Names(init) { AbsentCounts(init, a); }
    }
  }

  lemma {:induction false} AbsentCounts<A(!new)>(tools: seq<Tool<A>>, a: A)
    requires a !in Names(tools)
    ensures WeightOf(tools, a) == CountOf(tools, a) == 0
    ensures SumWeights(Names(tools) + [a], tools) == SumWeights(Names(tools), tools)
    ensures SumCounts(Names(tools) + [a], tools) == SumCounts(Names(tools), tools)
  {
    AbsentIsZero(tools, a);
    assert (Names(tools) + [a])[..|Names(tools)|] == Names(tools);
  }

  lemma {:induction false} AbsentIsZero<A(!new)>(tools: seq<Tool<A>>, a: A)
    requires a !in Names(tools)
    ensures WeightOf(tools, a) == CountOf(tools, a) == 0
  {
    if tools != [] { AbsentIsZero(tools[..|tools| - 1], a); }
  }

  function SumNumerators<A(==, !new)>(names: seq<A>, tools: seq<Tool<A>>): nat {
    if names == [] then 0 else SumNumerators(names[..|names| - 1], tools) + Numerator(tools, names[|names| - 1])
  }

  lemma {:induction false} NumeratorsAre<A(!new)>(names: seq<A>, tools: seq<Tool<A>>)
    ensures SumNumerators(names, tools) == if TotalWeight(tools) > 0 then SumWeights(names, tools) else |names|
  {
    if names != [] { NumeratorsAre(names[..|names| - 1], tools); }
  }

  lemma {:induction false} FractionsAgainstNumerators<A(!new)>(names: seq<A>, tools: seq<Tool<A>>)
    requires tools != []
    ensures IsMultiple(SumFractions(names, tools), Denominator(tools), SumNumerators(names, tools))
  {
    if names == [] {
      MultipleOfZero(Denominator(tools));
    } else {
      var init, a := names[..|names| - 1], names[|names| - 1];
      FractionsAgainstNumerators(init, tools);
      AddRatio(SumFractions(init, tools), SumNumerators(init, tools), Numerator(tools, a), Denominator(tools));
    }
  }

  ghost predicate IsMultiple(s: real, d: nat, n: nat) { s * d as real == n as real }

  lemma MultipleOfZero(d: nat)
    ensures IsMultiple(0.0, d, 0)
  {
  }

  lemma AddRatio(s: real, n: nat, m: nat, d: nat)
    requires d > 0 && IsMultiple(s, d, n)
    ensures IsMultiple(s + Ratio(m, d), d, n + m)
  {
    Distribute(d as real, s, Ratio(m, d));
  }

  lemma MultipleOfItself(s: real, d: nat)
    requires d > 0 && IsMultiple(s, d, d)
    ensures s == 1.0
  {
  }

  /** The fractions of a turn add up to one, also when all weights are zero. */
  lemma FractionsSumToOne<A(!new)>(tools: seq<Tool<A>>)
    requires tools != []
    ensures SumFractions(Names(tools), tools) == 1.0
  {
    FractionsAgainstNumerators(Names(tools), tools);
    NumeratorsAre(Names(tools), tools);
    SumsOverNames(tools);
    MultipleOfItself(SumFractions(Names(tools), tools), Denominator(tools));
  }

  function SumShares<A(==, !new)>(names: seq<A>, tools: seq<Tool<A>>, tokens: int): int
    requires tools != []
  {
    if names == [] then 0
    else SumShares(names[..|names| - 1], tools, tokens) + Share(tokens, Fraction(tools, names[|names| - 1]))
  }

  /** `n` floored parts of `exact` lose less than `n` in all. */
  ghost predicate Floored(sum: int, exact: real, n: nat) {
    sum as real <= exact && (if n == 0 then sum as real == exact else sum as real > exact - n as real)
  }

  lemma AddShare(sum: int, tokens: int, fractions: real, f: real, n: nat)
    requires Floored(sum, tokens as real * fractions, n)
    ensures Floored(sum + Share(tokens, f), tokens as real * (fractions + f), n + 1)
  {
    Distribute(tokens as real, fractions, f);
  }

  lemma {:induction false} SharesAgainstFractions<A(!new)>(names: seq<A>, tools: seq<Tool<A>>, tokens: int)
    requires tools != []
    ensures Floored(SumShares(names, tools, tokens), tokens as real * SumFractions(names, tools), |names|)
  {
    if names != [] {
      var init := names[..|names| - 1];
      SharesAgainstFractions(init, tools, tokens);
      AddShare(SumShares(init, tools, tokens), tokens, SumFractions(init, tools), Fraction(tools, names[|names| - 1]),
          |init|);
    }
  }

  lemma Distribute(x: real, a: real, b: real)
    ensures x * (a + b) == x * a + x * b
  {
  }

  /** Flooring loses at most one token per activity, less one. */
  lemma TokenLoss<A(!new)>(tools: seq<Tool<A>>, tokens: int)
    requires tools != []
    ensures 0 <= tokens - SumShares(Names(tools), tools, tokens) <= |Names(tools)| - 1
  {
    FractionsSumToOne(tools);
    SharesAgainstFractions(Names(tools), tools, tokens);
  }

  function SumCosts<A(==, !new)>(names: seq<A>, tools: seq<Tool<A>>, x: real): real
    requires tools != []
  {
    if names == [] then 0.0 else SumCosts(names[..|names| - 1], tools, x) + Part(x, Fraction(tools, names[|names| - 1]))
  }

  lemma {:induction false} CostsAgainstFractions<A(!new)>(names: seq<A>, tools: seq<Tool<A>>, x: real)
    requires tools != []
    ensures SumCosts(names, tools, x) == Part(x, SumFractions(names, tools))
  {
    if names != [] {
      CostsAgainstFractions(names[..|names| - 1], tools, x);
      Distribute(x, SumFractions(names[..|names| - 1], tools), Fraction(tools, names[|names| - 1]));
    }
  }

  lemma {:induction false} PortionColumns<A(!new)>(names: seq<A>, tools: seq<Tool<A>>, cost: Bucket)
    requires tools != []
    ensures SumPortions(names, tools, cost) == Bucket(SumCosts(names, tools, cost.cost),
      SumShares(names, tools, cost.input), SumShares(names, tools, cost.output),
      SumShares(names, tools, cost.cacheRead), SumShares(names, tools, cost.cacheWrite), SumCounts(names, tools))
  {
    if names != [] { PortionColumns(names[..|names| - 1], tools, cost); }
  }

  ghost predicate Loses(given: Bucket, received: Bucket, most: int) {
    && given.cost == received.cost
    && 0 <= given.input - received.input <= most
    && 0 <= given.output - received.output <= most
    && 0 <= given.cacheRead - received.cacheRead <= most
    && 0 <= given.cacheWrite - received.cacheWrite <= most
    && given.calls == received.calls
  }

  /** The calls of a turn: its tool calls, or one if it has none. */
  function Calls<A(==, !new)>(tools: seq<Tool<A>>): nat { if tools == [] then 1 else |tools| }

  /** The most tokens a turn may lose in a column. */
  function MaxLoss<A(==, !new)>(tools: seq<Tool<A>>): nat { if tools == [] then 0 else |Names(tools)| - 1 }

  /** One turn raises the totals by its exact cost and calls, and by its tokens up to one per further activity. */
  lemma TurnConserves<A(!new)>(table: map<A, Bucket>, tools: seq<Tool<A>>, cost: Bucket, intent: A)
    ensures Loses(Add(Total(table), cost.(calls := Calls(tools))), Total(CreditTurn(table, tools, cost, intent)),
        MaxLoss(tools))
  {
    if tools == [] {
      TotalOfCredit(table, intent, cost.(calls := 1));
    } else {
      CreditAllTotal(table, Names(tools), tools, cost);
      PortionColumns(Names(tools), tools, cost);
      CostsAgainstFractions(Names(tools), tools, cost.cost);
      FractionsSumToOne(tools);
      SumsOverNames(tools);
      TokenLoss(tools, cost.input);
      TokenLoss(tools, cost.output);
      TokenLoss(tools, cost.cacheRead);
      TokenLoss(tools, cost.cacheWrite);
    }
  }
}
