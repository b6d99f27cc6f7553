/** Action and purpose of a turn, and how the purpose depends on earlier turns. */
module PurposeHeuristic {
  import opened Common
  import opened Spans

  datatype Context = Context(categories: seq<string>, commands: seq<ShellCommand>)

  datatype TrailNode = TrailNode(turn: Option<int>, isRetry: bool, hasErrorKind: bool)

  const NO_CONTEXT := Context([], [])

  // ---- Actions ----

  function ShellAction(c: ShellCommand): string {
    if c.isTest then "test"
    else if c.isGitWrite then "vcs"
    else if c.isGitRead then "read"
    else if c.isReadOnly then "read"
    else "execute"
  }

  predicate SomeShell(ctx: Context, action: string) {
    exists i :: 0 <= i < |ctx.commands| && ShellAction(ctx.commands[i]) == action
  }

  /** The priority ladder: the highest-value action names the whole turn. */
  function ClassifyAction(ctx: Context): (action: string)
    ensures ':' !in action && action != ""
  {
    if "file_write" in ctx.categories then "write"
    else if SomeShell(ctx, "test") then "test"
    else if SomeShell(ctx, "vcs") || "git_write" in ctx.categories then "vcs"
    else if SomeShell(ctx, "execute") then "execute"
    else if "agent" in ctx.categories then "delegate"
    else if "file_read" in ctx.categories || "file_search" in ctx.categories || "browser" in ctx.categories
            || "git_read" in ctx.categories || SomeShell(ctx, "read") then "read"
    else "think"
  }

  predicate RunsTest(ctx: Context) {
    exists i :: 0 <= i < |ctx.commands| && ctx.commands[i].isTest
  }

  predicate ChangesRepository(ctx: Context) {
    "git_write" in ctx.categories || exists i :: 0 <= i < |ctx.commands| && ctx.commands[i].isGitWrite
  }

  /** A command that no pattern recognises. */
  predicate RunsOther(ctx: Context) {
    exists i :: 0 <= i < |ctx.commands| && ctx.commands[i] == ShellCommand(false, false, false, false)
  }

  predicate Reads(ctx: Context) {
    ctx.commands != [] || exists c :: c in ctx.categories && c in {"file_read", "file_search", "browser", "git_read"}
  }

  /** Each action names the turn exactly when its own sign is there and none of a higher rung. */
  lemma ActionIs(ctx: Context)
    ensures ClassifyAction(ctx) == "write" <==> "file_write" in ctx.categories
    ensures ClassifyAction(ctx) == "test" <==> "file_write" !in ctx.categories && RunsTest(ctx)
    ensures ClassifyAction(ctx) == "vcs" <==>
      "file_write" !in ctx.categories && !RunsTest(ctx) && ChangesRepository(ctx)
    ensures ClassifyAction(ctx) == "execute" <==>
      "file_write" !in ctx.categories && !RunsTest(ctx) && !ChangesRepository(ctx) && RunsOther(ctx)
    ensures ClassifyAction(ctx) == "delegate" <==>
      "file_write" !in ctx.categories && !RunsTest(ctx) && !ChangesRepository(ctx) && !RunsOther(ctx)
      && "agent" in ctx.categories
    ensures ClassifyAction(ctx) == "read" <==>
      "file_write" !in ctx.categories && !RunsTest(ctx) && !ChangesRepository(ctx) && !RunsOther(ctx)
      && "agent" !in ctx.categories && Reads(ctx)
    ensures ClassifyAction(ctx) in {"write", "test", "vcs", "execute", "delegate", "read", "think"}
  {
    LadderIs(ctx);
  }

  /** The rungs in terms of the patterns that match each command. */
  lemma LadderIs(ctx: Context)
    ensures SomeShell(ctx, "test") <==> RunsTest(ctx)
    ensures !RunsTest(ctx) ==> (SomeShell(ctx, "vcs") || "git_write" in ctx.categories <==> ChangesRepository(ctx))
    ensures SomeShell(ctx, "execute") <==> RunsOther(ctx)
    ensures !RunsTest(ctx) && !ChangesRepository(ctx) && !RunsOther(ctx) ==>
      (SomeShell(ctx, "read") <==> ctx.commands != [])
  {
    forall i | 0 <= i < |ctx.commands|
      ensures var c, a := ctx.commands[i], ShellAction(ctx.commands[i]);
        && (a == "test" <==> c.isTest)
        && (a == "vcs" <==> !c.isTest && c.isGitWrite)
        && (a == "execute" <==> c == ShellCommand(false, false, false, false))
        && (a == "read" <==> !c.isTest && !c.isGitWrite && (c.isGitRead || c.isReadOnly))
    {
      }
    hide ShellAction;
    if !RunsTest(ctx) && !ChangesRepository(ctx) && !RunsOther(ctx) && ctx.commands != [] {
      assert ShellAction(ctx.commands[0]) == "read";
    }
  }

  // ---- Purposes ----

  function ActionOr(actions: map<int, string>, t: int, default: string): string {
    if t in actions then actions[t] else default
  }

  /** `any(actions.get(t) == "write" for t in range(lo, hi))`. */
  predicate WroteIn(actions: map<int, string>, lo: int, hi: int) {
    exists t :: lo <= t < hi && t in actions && actions[t] == "write"
  }

  /** `min(actions.keys(), default=turn)`. */
  ghost predicate IsFirstTurn(actions: map<int, string>, turn: int, first: int) {
    if actions.Keys == {} then first == turn else first in actions && forall t | t in actions :: first <= t
  }

  method FirstTurn(actions: map<int, string>, turn: int) returns (first: int)
    ensures IsFirstTurn(actions, turn, first)
  {
    var turns := SetToSeq(actions.Keys);
    if turns == [] {
      assert forall t :: t !in actions;
      return turn;
    }
    first := turns[0];
    for i := 1 to |turns|
      invariant first in turns && forall j | 0 <= j < i :: first <= turns[j]
    {
      if turns[i] < first { first := turns[i]; }
    }
  }

  method AnyWriteIn(actions: map<int, string>, lo: int, hi: int) returns (found: bool)
    ensures found == WroteIn(actions, lo, hi)
  {
    var t := lo;
    while t < hi
      invariant !WroteIn(actions, lo, t) && (lo <= hi ==> t <= hi)
    {
      if t in actions && actions[t] == "write" { return true; }
      t := t + 1;
    }
    return false;
  }

  /** The range scan from the first recorded turn finds a write exactly when some earlier turn recorded one. */
  lemma ScanMeansEarlierWrite(actions: map<int, string>, turn: int, first: int)
    requires IsFirstTurn(actions, turn, first)
    ensures WroteIn(actions, first, turn) <==> EarlierWrite(actions, turn)
  {
  }

  predicate EarlierWrite(actions: map<int, string>, turn: int) {
    exists t | t in actions :: t < turn && actions[t] == "write"
  }

  predicate All(s: seq<string>, allowed: set<string>) {
    forall c | c in s :: c in allowed
  }

  predicate AllGit(commands: seq<ShellCommand>) {
    commands != [] && forall i | 0 <= i < |commands| :: commands[i].isGitWrite || commands[i].isGitRead
  }

  predicate HasTest(ctx: Context) {
    exists i :: 0 <= i < |ctx.commands| && ctx.commands[i].isTest
  }

  /** A marked failure on the turn, or a write right after a turn that ran tests. */
  predicate Recovering(turn: int, nodes: seq<TrailNode>, actions: map<int, string>) {
    || (exists i :: 0 <= i < |nodes| && (nodes[i].isRetry || nodes[i].hasErrorKind))
    || (turn - 1 in actions && actions[turn - 1] == "test" && ActionOr(actions, turn, "think") == "write")
  }

  predicate HasGitWrite(ctx: Context) {
    (exists i :: 0 <= i < |ctx.commands| && ctx.commands[i].isGitWrite) || "git_write" in ctx.categories
  }

  /** Nothing but git and bookkeeping, in one of three shapes. */
  predicate Housekeeping(ctx: Context) {
    || (HasGitWrite(ctx) && All(ctx.categories, {"bookkeeping", "thinking", "git_write", "git_read"}
                                                + (if AllGit(ctx.commands) then {"shell"} else {})))
    || (ctx.categories != [] && All(ctx.categories, {"bookkeeping", "thinking", "git_read"}))
    || (ctx.categories != [] && All(ctx.categories, {"bookkeeping", "thinking", "shell"}) && AllGit(ctx.commands))
  }

  /** A written file, a delegation, or a shell command that changes something other than the repository. */
  predicate Building(ctx: Context) {
    || "file_write" in ctx.categories
    || "agent" in ctx.categories
    || ("shell" in ctx.categories && !HasGitWrite(ctx)
        && exists i :: 0 <= i < |ctx.commands| && !ctx.commands[i].isReadOnly)
  }

  function LookbackStart(turn: int): int { if turn - 3 > 1 then turn - 3 else 1 }

  /** The purpose of a turn without tests and without the signals that come before housekeeping. */
  function WorkPurpose(ctx: Context): string {
    if Housekeeping(ctx) then "housekeeping" else if Building(ctx) then "building" else "orienting"
  }

  /** The purpose in terms of what is recorded about this and other turns. */
  function ClassifyPurpose(turn: int, ctx: Context, nodes: seq<TrailNode>, actions: map<int, string>): (purpose: string)
    ensures purpose == "verifying" ==> WroteIn(actions, turn - 3, turn)
    ensures purpose != ""
  {
    if Recovering(turn, nodes, actions) then "recovering"
    else if HasTest(ctx) then (if WroteIn(actions, LookbackStart(turn), turn) then "verifying" else "orienting")
    else if !EarlierWrite(actions, turn) && ActionOr(actions, turn, "think") in {"read", "think"} then "orienting"
    else WorkPurpose(ctx)
  }

  /** Some turn of the last three, from turn 1 on, has recorded a write. */
  ghost predicate WroteRecently(actions: map<int, string>, turn: int) {
    exists t | t in actions :: 1 <= t && turn - 3 <= t < turn && actions[t] == "write"
  }

  /** No write is recorded before this turn, and the turn itself reads or thinks. */
  ghost predicate Exploring(actions: map<int, string>, turn: int) {
    && (forall t | t in actions && t < turn :: actions[t] != "write")
    && (turn in actions ==> actions[turn] == "read" || actions[turn] == "think")
  }

  /** Exactly when each purpose is given. */
  lemma PurposeIs(turn: int, ctx: Context, nodes: seq<TrailNode>, actions: map<int, string>)
    ensures var purpose := ClassifyPurpose(turn, ctx, nodes, actions);
      var early := Recovering(turn, nodes, actions);
      var settled := early || RunsTest(ctx) || Exploring(actions, turn);
      && (purpose == "recovering" <==> early)
      && (purpose == "verifying" <==> !early && RunsTest(ctx) && WroteRecently(actions, turn))
      && (purpose == "housekeeping" <==> !settled && Housekeeping(ctx))
      && (purpose == "building" <==> !settled && !Housekeeping(ctx) && Building(ctx))
      && (purpose in {"recovering", "verifying", "housekeeping", "building", "orienting"})
  {
    hide Recovering, Housekeeping, Building;
    assert WroteIn(actions, LookbackStart(turn), turn) <==> WroteRecently(actions, turn);
    assert !EarlierWrite(actions, turn) && ActionOr(actions, turn, "think") in {"read", "think"}
      <==> Exploring(actions, turn);
  }

  /** The cascade of signals with its early exits, and its scans: three turns back but not before turn 1, and from the
      first recorded turn. */
  method ClassifyPurposeHeuristic(turn: int, ctx: Context, nodes: seq<TrailNode>, actions: map<int, string>)
    returns (purpose: string)
    ensures purpose == ClassifyPurpose(turn, ctx, nodes, actions)
  {
    hide WorkPurpose;
    if exists i :: 0 <= i < |nodes| && nodes[i].isRetry { return "recovering"; }
    if exists i :: 0 <= i < |nodes| && nodes[i].hasErrorKind { return "recovering"; }
    var prevTurn := turn - 1;
    var thisAction := ActionOr(actions, turn, "think");
    if prevTurn in actions {
      var prevAction := actions[prevTurn];
      if prevAction == "test" && thisAction == "write" { return "recovering"; }
    }
    assert !Recovering(turn, nodes, actions);
    if exists i :: 0 <= i < |ctx.commands| && ctx.commands[i].isTest {
      var priorWrote := AnyWriteIn(actions, LookbackStart(turn), turn);
      if priorWrote { return "verifying"; }
      return "orienting";
    }
    var first := FirstTurn(actions, turn);
    var anyPriorWrite := AnyWriteIn(actions, first, turn);
    ScanMeansEarlierWrite(actions, turn, first);
    if !anyPriorWrite && thisAction in {"read", "think"} { return "orienting"; }
    purpose := ClassifyWork(ctx);
  }

  /** The signals from housekeeping on; no test has run. */
  method ClassifyWork(ctx: Context) returns (purpose: string)
    ensures purpose == WorkPurpose(ctx)
  {
    var shells, cats := ctx.commands, set c | c in ctx.categories;
    CategorySet(ctx.categories, cats);
    var hasGitWrite := (exists i :: 0 <= i < |shells| && shells[i].isGitWrite) || "git_write" in cats;
    var allShellsAreGit := shells != [] && forall i | 0 <= i < |shells| :: shells[i].isGitWrite || shells[i].isGitRead;
    var housekeepingSafe := {"bookkeeping", "thinking", "git_write", "git_read"};
    if allShellsAreGit { housekeepingSafe := housekeepingSafe + {"shell"}; }
    var nonHousekeeping := cats - housekeepingSafe;
    if hasGitWrite && nonHousekeeping == {} && "file_write" !in cats { return "housekeeping"; }
    if cats != {} && cats <= {"bookkeeping", "thinking", "git_read"} { return "housekeeping"; }
    if cats != {} && cats <= {"bookkeeping", "thinking", "shell"} && allShellsAreGit { return "housekeeping"; }
    assert !Housekeeping(ctx) by { NotHousekeeping(ctx, cats, housekeepingSafe); }
    var hasWrites := "file_write" in cats;
    var hasProductiveShell := "shell" in cats && !hasGitWrite
                              && shells != [] && !(forall i | 0 <= i < |shells| :: shells[i].isReadOnly);
    var hasDelegation := "agent" in cats;
    if !hasWrites && !hasProductiveShell && !hasDelegation { return "orienting"; }
    return "building";
  }

  lemma CategorySet(categories: seq<string>, cats: set<string>)
    requires cats == set c | c in categories
    ensures cats == {} <==> categories == []
    ensures forall allowed: set<string> :: All(categories, allowed) <==> cats <= allowed
  {
    if categories != [] { assert categories[0] in cats; }
  }

  lemma NotHousekeeping(ctx: Context, cats: set<string>, safe: set<string>)
    requires cats == set c | c in ctx.categories
    requires safe == {"bookkeeping", "thinking", "git_write", "git_read"} + if AllGit(ctx.commands) then {"shell"}
        else {}
    requires !(HasGitWrite(ctx) && cats - safe == {} && "file_write" !in cats)
    requires !(cats != {} && cats <= {"bookkeeping", "thinking", "git_read"})
    requires !(cats != {} && cats <= {"bookkeeping", "thinking", "shell"} && AllGit(ctx.commands))
    ensures !Housekeeping(ctx)
  {
    CategorySet(ctx.categories, cats);
    if cats <= safe {
      assert cats - safe == {};
      assert "file_write" !in safe;
    }
  }

  // ---- Contexts from spans ----

  /** Here an LLM span alone creates no context. */
  predicate HasTurnContext(spans: seq<Span>, t: int) {
    exists i :: 0 <= i < |spans| && InTurn(spans[i], t) && (IsTool(spans[i]) || HasPhase(spans[i]))
  }

  /** What a span adds to the context of its turn. */
  function Extend(ctx: Context, s: Span): Context {
    if IsTool(s) then
      Context(ctx.categories + [s.category],
              if s.category == "shell" && s.command.Some? then ctx.commands + [s.command.value] else ctx.commands)
    else ctx
  }

  /** The categories and shell commands of a turn's tool spans. */
  function ContextOf(spans: seq<Span>, t: int): Context {
    if spans == [] then NO_CONTEXT
    else
      var ctx, last := ContextOf(spans[..|spans| - 1], t), spans[|spans| - 1];
      if InTurn(last, t) then Extend(ctx, last) else ctx
  }

  /** A turn's context holds the category of each of its tool spans and the text of each of its shell commands, and
      nothing else. */
  lemma {:induction false} ContextHolds(spans: seq<Span>, t: int)
    ensures forall c :: c in ContextOf(spans, t).categories <==> exists s :: s in spans && GivesCategory(s, t, c)
    ensures forall m :: m in ContextOf(spans, t).commands <==> exists s :: s in spans && GivesCommand(s, t, m)
  {
    if spans != [] {
      var init, last := spans[..|spans| - 1], spans[|spans| - 1];
      var before, after := ContextOf(init, t), ContextOf(spans, t);
      ContextHolds(init, t);
      assert spans == init + [last];
      assert forall s :: s in spans <==> s in init || s == last;
      assert forall c :: c in after.categories <==> c in before.categories || GivesCategory(last, t, c);
      assert forall m :: m in after.commands <==> m in before.commands || GivesCommand(last, t, m);
    }
  }

  predicate GivesCategory(s: Span, t: int, c: string) {
    s.turn == Some(t) && s.kind.ToolCall? && s.category == c
  }

  predicate GivesCommand(s: Span, t: int, m: ShellCommand) {
    s.turn == Some(t) && s.kind.ToolCall? && s.category == "shell" && s.command == Some(m)
  }

  /** The action recorded for a turn, if it has a context. */
  function RecordedAction(spans: seq<Span>, t: int): Option<string> {
    if HasTurnContext(spans, t) then Some(ClassifyAction(ContextOf(spans, t))) else None
  }

  /** The recorded actions of all turns with a context. */
  ghost predicate ActionsOf(spans: seq<Span>, actions: map<int, string>) {
    forall t :: RecordedAction(spans, t) == if t in actions then Some(actions[t]) else None
  }

  function NodesOf(nodes: seq<TrailNode>, t: int): seq<TrailNode> {
    if nodes == [] then []
    else NodesOf(nodes[..|nodes| - 1], t) + if nodes[|nodes| - 1].turn == Some(t) then [nodes[|nodes| - 1]] else []
  }

  lemma {:induction false} NodesHold(nodes: seq<TrailNode>, t: int)
    ensures forall n :: n in NodesOf(nodes, t) <==> n in nodes && n.turn == Some(t)
  {
    if nodes != [] {
      NodesHold(nodes[..|nodes| - 1], t);
      assert nodes == nodes[..|nodes| - 1] + [nodes[|nodes| - 1]];
    }
  }

  // ---- The classification is online ----

  predicate UpTo(turn: Option<int>, limit: int) { turn.Some? && turn.value <= limit }

  function SpansUpTo(spans: seq<Span>, limit: int): seq<Span> {
    if spans == [] then []
    else SpansUpTo(spans[..|spans| - 1], limit) + if UpTo(spans[|spans| - 1].turn, limit) then [spans[|spans| - 1]]
        else []
  }

  function NodesUpTo(nodes: seq<TrailNode>, limit: int): seq<TrailNode> {
    if nodes == [] then []
    else NodesUpTo(nodes[..|nodes| - 1], limit) + if UpTo(nodes[|nodes| - 1].turn, limit) then [nodes[|nodes| - 1]]
        else []
  }

  lemma ContextMore(spans: seq<Span>, s: Span, t: int)
    ensures HasTurnContext(spans + [s], t) <==> HasTurnContext(spans, t) || (InTurn(s, t) && (IsTool(s) || HasPhase(s)))
    ensures ContextOf(spans + [s], t) == if InTurn(s, t) then Extend(ContextOf(spans, t), s) else ContextOf(spans, t)
  {
    var all := spans + [s];
    assert all[..|spans|] == spans && all[|spans|] == s;
    if i :| 0 <= i < |spans| && InTurn(spans[i], t) && (IsTool(spans[i]) || HasPhase(spans[i])) {
      assert all[i] == spans[i];
    }
  }

  /** Later spans leave a turn's context as it is. */
  lemma {:induction false} ContextUpTo(spans: seq<Span>, limit: int, t: int)
    requires t <= limit
    ensures HasTurnContext(SpansUpTo(spans, limit), t) <==> HasTurnContext(spans, t)
    ensures ContextOf(SpansUpTo(spans, limit), t) == ContextOf(spans, t)
  {
    if spans != [] {
      var init, last := spans[..|spans| - 1], spans[|spans| - 1];
      ContextUpTo(init, limit, t);
      assert spans == init + [last];
      ContextMore(init, last, t);
      if UpTo(last.turn, limit) {
        ContextMore(SpansUpTo(init, limit), last, t);
      } else {
        assert SpansUpTo(spans, limit) == SpansUpTo(init, limit);
      }
    }
  }

  lemma {:induction false} SameNodes(nodes: seq<TrailNode>, limit: int, t: int)
    requires t <= limit
    ensures NodesOf(NodesUpTo(nodes, limit), t) == NodesOf(nodes, t)
  {
    if nodes != [] {
      var init, last := nodes[..|nodes| - 1], nodes[|nodes| - 1];
      SameNodes(init, limit, t);
      if UpTo(last.turn, limit) {
        assert (NodesUpTo(init, limit) + [last])[..|NodesUpTo(init, limit)|] == NodesUpTo(init, limit);
      } else {
        assert NodesUpTo(nodes, limit) == NodesUpTo(init, limit);
      }
    }
  }

  /** A purpose looks at no later turn: recorded actions that agree up to the turn give the same purpose. */
  lemma PurposeReadsThePast(turn: int, ctx: Context, nodes: seq<TrailNode>, actions: map<int, string>,
                            other: map<int, string>)
    requires forall t | t <= turn :: (t in actions <==> t in other) && (t in actions ==> actions[t] == other[t])
    ensures ClassifyPurpose(turn, ctx, nodes, actions) == ClassifyPurpose(turn, ctx, nodes, other)
  {
    assert WroteIn(actions, LookbackStart(turn), turn) == WroteIn(other, LookbackStart(turn), turn);
    assert EarlierWrite(actions, turn) == EarlierWrite(other, turn);
  }

  /** Purposes are online from the spans on: cutting spans and trail nodes after a turn changes nothing about it. */
  lemma PurposesAreOnline(spans: seq<Span>, nodes: seq<TrailNode>, limit: int, turn: int,
                          actions: map<int, string>, earlier: map<int, string>)
    requires turn <= limit && ActionsOf(spans, actions) && ActionsOf(SpansUpTo(spans, limit), earlier)
    ensures ClassifyPurpose(turn, ContextOf(spans, turn), NodesOf(nodes, turn), actions)
         == ClassifyPurpose(turn, ContextOf(SpansUpTo(spans, limit), turn), NodesOf(NodesUpTo(nodes, limit), turn),
             earlier)
  {
    ContextUpTo(spans, limit, turn);
    SameNodes(nodes, limit, turn);
    forall t | t <= turn ensures (t in actions <==> t in earlier) && (t in actions ==> actions[t] == earlier[t]) {
      ContextUpTo(spans, limit, t);
      assert RecordedAction(spans, t) == RecordedAction(SpansUpTo(spans, limit), t);
    }
    PurposeReadsThePast(turn, ContextOf(spans, turn), NodesOf(nodes, turn), actions, earlier);
  }
}
