/** Filling the new turn_id column of the telemetry spans from transcript events.

    Both tables are listed in id order. `J` is a job, `C` a tool name with its arguments, `T` a turn id. */
module TurnIds {
  import opened Common
  import opened RankJoin

  datatype SpanType = ToolSpan | LlmSpan | OtherSpan

  /** `call` is None when the name or the arguments are NULL: such a row equals no other. */
  datatype Span<J, C, T> = Span(job: J, spanType: SpanType, call: Option<C>, turn: Option<int>, turnId: Option<T>)

  /** `isToolCall` stands for the kind TranscriptUpdated and the role tool_call. */
  datatype Event<J, C, T> = Event(job: J, isToolCall: bool, call: Option<C>, turnId: Option<T>)

  // ---- Keys of the join ----

  function SpanKey<J, C, T>(s: Span<J, C, T>): Option<(J, C)> {
    if s.spanType == ToolSpan && s.call.Some? then Some((s.job, s.call.value)) else None
  }

  function EventKey<J, C, T>(e: Event<J, C, T>): Option<(J, C)> {
    if e.isToolCall && e.turnId.Some? && e.call.Some? then Some((e.job, e.call.value)) else None
  }

  function SpanKeys<J, C, T>(spans: seq<Span<J, C, T>>): (keys: seq<Option<(J, C)>>)
    ensures |keys| == |spans| && forall i | 0 <= i < |spans| :: keys[i] == SpanKey(spans[i])
  {
    if spans == [] then [] else SpanKeys(spans[..|spans| - 1]) + [SpanKey(spans[|spans| - 1])]
  }

  function EventKeys<J, C, T>(events: seq<Event<J, C, T>>): (keys: seq<Option<(J, C)>>)
    ensures |keys| == |events| && forall i | 0 <= i < |events| :: keys[i] == EventKey(events[i])
  {
    if events == [] then [] else EventKeys(events[..|events| - 1]) + [EventKey(events[|events| - 1])]
  }

  /** Rows of one partition of the first window: tool spans of a job with one name and arguments. */
  predicate SameSpanCall<J(==), C(==), T>(a: Span<J, C, T>, b: Span<J, C, T>) {
    a.spanType == ToolSpan && b.spanType == ToolSpan && a.job == b.job && a.call.Some? && a.call == b.call
  }

  /** Rows of one partition of the second: tool-call events that have a turn id. */
  predicate SameEventCall<J(==), C(==), T>(a: Event<J, C, T>, b: Event<J, C, T>) {
    && a.isToolCall && b.isToolCall && a.turnId.Some? && b.turnId.Some?
    && a.job == b.job && a.call.Some? && a.call == b.call
  }

  /** The join of the statement, column by column: a tool span and a tool-call event with a turn id, of one job, with
      one name and arguments, that are equally many-th in their partitions. */
  lemma JoinedMeans<J, C, T>(spans: seq<Span<J, C, T>>, events: seq<Event<J, C, T>>, i: nat, e: nat)
    requires i < |spans| && e < |events|
    ensures Joined(SpanKeys(spans), EventKeys(events), i, e) <==>
      && spans[i].spanType == ToolSpan && events[e].isToolCall && events[e].turnId.Some?
      && spans[i].job == events[e].job && spans[i].call.Some? && spans[i].call == events[e].call
      && |set j | 0 <= j <= i && SameSpanCall(spans[j], spans[i])|
         == |set j | 0 <= j <= e && SameEventCall(events[j], events[e])|
  {
    hide Rank;
    if SpanKey(spans[i]).Some? { SpanRank(spans, i); }
    if EventKey(events[e]).Some? { EventRank(events, e); }
  }

  lemma {:induction false} SpanRank<J, C, T>(spans: seq<Span<J, C, T>>, i: nat)
    requires i < |spans| && SpanKey(spans[i]).Some?
    ensures Rank(SpanKeys(spans), i) == |set j | 0 <= j <= i && SameSpanCall(spans[j], spans[i])|
  {
    hide Rank;
    var p := SpanKeys(spans);
    RankCounts(p, i);
    assert (set j | 0 <= j <= i && p[j] == p[i]) == (set j | 0 <= j <= i && SameSpanCall(spans[j], spans[i]));
  }

  lemma {:induction false} EventRank<J, C, T>(events: seq<Event<J, C, T>>, e: nat)
    requires e < |events| && EventKey(events[e]).Some?
    ensures Rank(EventKeys(events), e) == |set j | 0 <= j <= e && SameEventCall(events[j], events[e])|
  {
    hide Rank;
    var q := EventKeys(events);
    RankCounts(q, e);
    assert (set j | 0 <= j <= e && q[j] == q[e]) == (set j | 0 <= j <= e && SameEventCall(events[j], events[e]));
  }

  // ---- The two statements ----

  /** The scalar subquery of the first statement: the turn id of the only event that joins, or NULL. */
  ghost predicate IsJoinedId<J, C, T>(spans: seq<Span<J, C, T>>, events: seq<Event<J, C, T>>, i: nat, id: Option<T>) {
    match id
    case Some(t) => exists e: nat :: Joined(SpanKeys(spans), EventKeys(events), i, e) && events[e].turnId == Some(t)
    case None => forall e: nat :: !Joined(SpanKeys(spans), EventKeys(events), i, e)
  }

  /** Only the turn id changes, and only as the statement says. */
  ghost predicate ToolFilled<J, C, T>(table: seq<Span<J, C, T>>, events: seq<Event<J, C, T>>, i: nat,
                                      after: Span<J, C, T>)
    requires i < |table|
  {
    && after == table[i].(turnId := after.turnId)
    && if table[i].spanType == ToolSpan then IsJoinedId(table, events, i, after.turnId)
       else after.turnId == table[i].turnId
  }

  ghost predicate ToolsFilled<J, C, T>(before: seq<Span<J, C, T>>, events: seq<Event<J, C, T>>,
                                       after: seq<Span<J, C, T>>)
  {
    |after| == |before| && forall i | 0 <= i < |before| :: ToolFilled(before, events, i, after[i])
  }

  /** A tool span of the same job and turn that has a turn id. */
  predicate Donor<J(==), C, T>(donor: Span<J, C, T>, s: Span<J, C, T>) {
    && donor.job == s.job && donor.spanType == ToolSpan
    && donor.turn.Some? && donor.turn == s.turn
    && donor.turnId.Some?
  }

  /** ORDER BY id ASC LIMIT 1: the earliest donor in the table, also when it comes after the span. */
  ghost predicate IsEarliestId<J, C, T>(spans: seq<Span<J, C, T>>, s: Span<J, C, T>, id: Option<T>) {
    match id
    case Some(t) =>
      exists d :: 0 <= d < |spans| && Donor(spans[d], s) && spans[d].turnId == Some(t)
               && forall c | 0 <= c < d :: !Donor(spans[c], s)
    case None => forall d | 0 <= d < |spans| :: !Donor(spans[d], s)
  }

  ghost predicate LlmFilled<J, C, T>(table: seq<Span<J, C, T>>, before: Span<J, C, T>, after: Span<J, C, T>) {
    && after == before.(turnId := after.turnId)
    && if before.spanType == LlmSpan && before.turnId.None? then IsEarliestId(table, before, after.turnId)
       else after.turnId == before.turnId
  }

  ghost predicate LlmsFilled<J, C, T>(before: seq<Span<J, C, T>>, after: seq<Span<J, C, T>>) {
    |after| == |before| && forall i | 0 <= i < |before| :: LlmFilled(before, before[i], after[i])
  }

  ghost predicate ColumnAdded<J, C, T>(before: seq<Span<J, C, T>>, after: seq<Span<J, C, T>>) {
    |after| == |before| && forall i | 0 <= i < |before| :: after[i] == before[i].(turnId := None)
  }

  // ---- The backfill as a whole ----

  /** The turn id of a tool span: the one of its first-in-first-out partner among the events. */
  function PartnerId<J(==), C(==), T>(spans: seq<Span<J, C, T>>, events: seq<Event<J, C, T>>, i: nat): Option<T>
    requires i < |spans|
  {
    match RankMatch(SpanKeys(spans), EventKeys(events), i)
    case Some(e) => events[e].turnId
    case None => None
  }

  ghost predicate RowBackfilled<J, C, T>(before: seq<Span<J, C, T>>, events: seq<Event<J, C, T>>,
                                         after: seq<Span<J, C, T>>, i: nat)
    requires i < |before| == |after|
  {
    && after[i] == before[i].(turnId := after[i].turnId)
    && match before[i].spanType
       case ToolSpan => after[i].turnId == PartnerId(before, events, i)
       case LlmSpan => IsEarliestId(after, after[i], after[i].turnId)
       case OtherSpan => after[i].turnId == None
  }

  ghost predicate Backfilled<J, C, T>(before: seq<Span<J, C, T>>, events: seq<Event<J, C, T>>,
                                      after: seq<Span<J, C, T>>)
  {
    |after| == |before| && forall i | 0 <= i < |before| :: RowBackfilled(before, events, after, i)
  }

  lemma JoinedIdIsPartnerId<J, C, T>(spans: seq<Span<J, C, T>>, events: seq<Event<J, C, T>>, i: nat, id: Option<T>)
    requires i < |spans|
    ensures IsJoinedId(spans, events, i, id) <==> id == PartnerId(spans, events, i)
  {
    var spanKeys, eventKeys := SpanKeys(spans), EventKeys(events);
    forall e: nat ensures Joined(spanKeys, eventKeys, i, e) <==> RankMatch(spanKeys, eventKeys, i) == Some(e) {
      JoinFindsRankMatch(spanKeys, eventKeys, i, e);
    }
    if e: nat :| RankMatch(spanKeys, eventKeys, i) == Some(e) {
      assert Joined(spanKeys, eventKeys, i, e);
      assert eventKeys[e] == EventKey(events[e]) && eventKeys[e].Some?;
    }
  }

  lemma SameKeys<J, C, T>(before: seq<Span<J, C, T>>, after: seq<Span<J, C, T>>)
    requires |after| == |before| && forall i | 0 <= i < |before| :: after[i] == before[i].(turnId := after[i].turnId)
    ensures SpanKeys(after) == SpanKeys(before)
  {
  }

  lemma SameEarliest<J, C, T>(a: seq<Span<J, C, T>>, b: seq<Span<J, C, T>>, s: Span<J, C, T>, r: Span<J, C, T>,
                              id: Option<T>)
    requires |a| == |b| && forall i | 0 <= i < |a| :: Donor(a[i], s) <==> Donor(b[i], r)
    requires forall i | 0 <= i < |a| && Donor(a[i], s) :: a[i].turnId == b[i].turnId
    requires IsEarliestId(a, s, id)
    ensures IsEarliestId(b, r, id)
  {
  }

  lemma BackfillHolds<J, C, T>(before: seq<Span<J, C, T>>, events: seq<Event<J, C, T>>, blank: seq<Span<J, C, T>>,
                               mid: seq<Span<J, C, T>>, after: seq<Span<J, C, T>>)
    requires ColumnAdded(before, blank) && ToolsFilled(blank, events, mid) && LlmsFilled(mid, after)
    ensures Backfilled(before, events, after)
  {
    hide IsJoinedId, IsEarliestId, PartnerId;
    forall i | 0 <= i < |before| ensures RowBackfilled(before, events, after, i) {
      assert ToolFilled(blank, events, i, mid[i]) && LlmFilled(mid, mid[i], after[i]);
      match before[i].spanType {
        case ToolSpan =>
          JoinedIdIsPartnerId(blank, events, i, mid[i].turnId);
          PartnerOfBlank(before, events, blank, i);
        case LlmSpan =>
          DonorsStay(mid, after, mid[i], after[i]);
          SameEarliest(mid, after, mid[i], after[i], after[i].turnId);
        case OtherSpan =>
      }
    }
  }

  lemma PartnerOfBlank<J, C, T>(before: seq<Span<J, C, T>>, events: seq<Event<J, C, T>>, blank: seq<Span<J, C, T>>,
                                i: nat)
    requires ColumnAdded(before, blank) && i < |before|
    ensures PartnerId(blank, events, i) == PartnerId(before, events, i)
  {
    SameKeys(before, blank);
  }

  lemma DonorsStay<J, C, T>(mid: seq<Span<J, C, T>>, after: seq<Span<J, C, T>>, s: Span<J, C, T>, r: Span<J, C, T>)
    requires LlmsFilled(mid, after) && r == s.(turnId := r.turnId)
    ensures forall i | 0 <= i < |mid| :: Donor(mid[i], s) <==> Donor(after[i], r)
    ensures forall i | 0 <= i < |mid| && Donor(mid[i], s) :: mid[i].turnId == after[i].turnId
  {
    hide IsEarliestId;
    forall i | 0 <= i < |mid|
      ensures (Donor(mid[i], s) <==> Donor(after[i], r)) && (Donor(mid[i], s) ==> mid[i].turnId == after[i].turnId)
    {
      assert LlmFilled(mid, mid[i], after[i]);
    }
  }

  class SpanTable<J(==), C(==), T> {
    var spans: seq<Span<J, C, T>>

    constructor (spans: seq<Span<J, C, T>>)
      ensures this.spans == spans
    {
      this.spans := spans;
    }

    /** The new column is NULL everywhere. */
    method AddColumn()
      modifies this
      ensures ColumnAdded(old(spans), spans)
    {
      spans := seq(|spans|, i requires 0 <= i < |spans| reads this => spans[i].(turnId := None));
    }

    /** The first statement, with the events' ranks found by scanning. */
    method FillTools(events: seq<Event<J, C, T>>)
      modifies this
      ensures ToolsFilled(old(spans), events, spans)
    {
      var before, after := spans, [];
      for i := 0 to |before|
        invariant spans == before && |after| == i
        invariant forall k: nat | k < i :: ToolFilled(before, events, k, after[k])
      {
        var id := before[i].turnId;
        if before[i].spanType == ToolSpan { id := JoinedId(before, events, i); }
        after := after + [before[i].(turnId := id)];
      }
      spans := after;
    }

    /** The second statement. */
    method FillLlms()
      modifies this
      ensures LlmsFilled(old(spans), spans)
    {
      var before, after := spans, [];
      for i := 0 to |before|
        invariant spans == before && |after| == i
        invariant forall k | 0 <= k < i :: LlmFilled(before, before[k], after[k])
      {
        var id := before[i].turnId;
        if before[i].spanType == LlmSpan && before[i].turnId.None? { id := EarliestId(before, before[i]); }
        after := after + [before[i].(turnId := id)];
      }
      spans := after;
    }

    /** The whole backfill. */
    method Upgrade(events: seq<Event<J, C, T>>)
      modifies this
      ensures Backfilled(old(spans), events, spans)
    {
      AddColumn();
      ghost var blank := spans;
      FillTools(events);
      ghost var mid := spans;
      FillLlms();
      BackfillHolds(old(spans), events, blank, mid, spans);
    }
  }

  method JoinedId<J(==), C(==), T>(spans: seq<Span<J, C, T>>, events: seq<Event<J, C, T>>, i: nat)
    returns (id: Option<T>)
    requires i < |spans|
    ensures IsJoinedId(spans, events, i, id)
  {
    var partner := RankMatch(SpanKeys(spans), EventKeys(events), i);
    id := if partner.Some? then events[partner.value].turnId else None;
    JoinedIdIsPartnerId(spans, events, i, id);
  }

  method EarliestId<J(==), C, T>(spans: seq<Span<J, C, T>>, s: Span<J, C, T>) returns (id: Option<T>)
    ensures IsEarliestId(spans, s, id)
  {
    for d := 0 to |spans|
      invariant forall c | 0 <= c < d :: !Donor(spans[c], s)
    {
      if Donor(spans[d], s) { return spans[d].turnId; }
    }
    return None;
  }

  // ---- What the backfill promises ----

  /** Every turn id on a span is the turn id of a tool-call event of the same job. */
  lemma TurnIdsComeFromTheJob<J, C, T>(before: seq<Span<J, C, T>>, events: seq<Event<J, C, T>>,
                                       after: seq<Span<J, C, T>>, i: nat)
    requires Backfilled(before, events, after) && i < |after| && after[i].turnId.Some?
    ensures exists e ::
      0 <= e < |events| && events[e].isToolCall && events[e].job == after[i].job && events[e].turnId == after[i].turnId
  {
    hide IsEarliestId, PartnerId;
    assert RowBackfilled(before, events, after, i);
    if before[i].spanType == ToolSpan {
      PartnerIsOfTheJob(before, events, i);
    } else {
      var d := DonorOf(after, after[i], after[i].turnId);
      assert RowBackfilled(before, events, after, d);
      PartnerIsOfTheJob(before, events, d);
    }
  }

  lemma DonorOf<J, C, T>(spans: seq<Span<J, C, T>>, s: Span<J, C, T>, id: Option<T>) returns (d: nat)
    requires IsEarliestId(spans, s, id) && id.Some?
    ensures d < |spans| && Donor(spans[d], s) && spans[d].turnId == id
  {
    d :| 0 <= d < |spans| && Donor(spans[d], s) && spans[d].turnId == id;
  }

  lemma PartnerIsOfTheJob<J, C, T>(spans: seq<Span<J, C, T>>, events: seq<Event<J, C, T>>, i: nat)
    requires i < |spans| && PartnerId(spans, events, i).Some?
    ensures exists e :: 0 <= e < |events| && events[e].isToolCall && events[e].job == spans[i].job
                     && events[e].turnId == PartnerId(spans, events, i)
  {
    var e := RankMatch(SpanKeys(spans), EventKeys(events), i).value;
    assert EventKeys(events)[e] == SpanKeys(spans)[i];
  }

  /** All LLM spans of one turn of a job receive the same turn id. */
  lemma LlmSpansOfATurnAgree<J, C, T>(before: seq<Span<J, C, T>>, events: seq<Event<J, C, T>>,
                                      after: seq<Span<J, C, T>>, i: nat, j: nat)
    requires Backfilled(before, events, after) && i < |after| && j < |after|
    requires after[i].spanType == LlmSpan && after[j].spanType == LlmSpan
    requires after[i].job == after[j].job && after[i].turn == after[j].turn
    ensures after[i].turnId == after[j].turnId
  {
    hide PartnerId;
    assert RowBackfilled(before, events, after, i) && RowBackfilled(before, events, after, j);
    EarliestIsUnique(after, after[i], after[j], after[i].turnId, after[j].turnId);
  }

  lemma EarliestIsUnique<J, C, T>(spans: seq<Span<J, C, T>>, s: Span<J, C, T>, r: Span<J, C, T>, id: Option<T>,
                                  id': Option<T>)
    requires s.job == r.job && s.turn == r.turn
    requires IsEarliestId(spans, s, id) && IsEarliestId(spans, r, id')
    ensures id == id'
  {
    assert forall d | 0 <= d < |spans| :: Donor(spans[d], s) <==> Donor(spans[d], r);
  }

  // ---- The closest preceding tool span ----

  /** What the migration's comment describes: the latest donor before the span, if there is one. */
  ghost predicate IsClosestPrecedingId<J, C, T>(spans: seq<Span<J, C, T>>, i: nat, id: Option<T>)
    requires i < |spans|
  {
    match id
    case Some(t) =>
      exists d :: 0 <= d < i && Donor(spans[d], spans[i]) && spans[d].turnId == Some(t)
               && forall c | d < c < i :: !Donor(spans[c], spans[i])
    case None => forall d | 0 <= d < i :: !Donor(spans[d], spans[i])
  }

  /** Span `d` is a tool span of the same job and turn as span `i`, and its call finds an event. */
  predicate WillDonate<J(==), C(==), T>(spans: seq<Span<J, C, T>>, keys: seq<Option<(J, C)>>, d: nat, i: nat)
    requires d < |spans| && i < |spans|
  {
    && spans[d].job == spans[i].job && spans[d].spanType == ToolSpan
    && spans[d].turn.Some? && spans[d].turn == spans[i].turn
    && RankMatch(SpanKeys(spans), keys, d).Some?
  }

  /** No tool span of the turn finds an event, or exactly one of those before the span does. */
  ghost predicate NoChoice<J, C, T>(spans: seq<Span<J, C, T>>, keys: seq<Option<(J, C)>>, i: nat)
    requires i < |spans|
  {
    || (forall d: nat | d < |spans| :: !WillDonate(spans, keys, d, i))
    || (exists d: nat :: d < i && WillDonate(spans, keys, d, i)
                      && forall c: nat | c < i && c != d :: !WillDonate(spans, keys, c, i))
  }

  ghost predicate SameButTurnIds<J, C, T>(events: seq<Event<J, C, T>>, layout: seq<Event<J, C, T>>) {
    && |events| == |layout|
    && forall e | 0 <= e < |events| ::
         events[e] == layout[e].(turnId := events[e].turnId) && (events[e].turnId.Some? <==> layout[e].turnId.Some?)
  }

  /** The LLM span takes the id of the closest preceding tool span. */
  ghost predicate TakesClosest<J, C, T>(after: seq<Span<J, C, T>>, i: nat) {
    i < |after| && IsClosestPrecedingId(after, i, after[i].turnId)
  }

  /** Whatever the turn ids of the events, the backfill gives an LLM span the id of the closest preceding tool span
      exactly when the turn leaves no choice: no tool span of it finds an event, or exactly one of those before the
      LLM span does. `t` and `u` are any two ids. */
  lemma ClosestIffNoChoice<J(!new), C(!new), T(!new)>(before: seq<Span<J, C, T>>, layout: seq<Event<J, C, T>>,
                                                      i: nat, t: T, u: T)
    requires i < |before| && before[i].spanType == LlmSpan && t != u
    ensures NoChoice(before, EventKeys(layout), i) <==>
      forall events, after :: SameButTurnIds(events, layout) && Backfilled(before, events, after)
          ==> TakesClosest(after, i)
  {
    hide NoChoice, SameButTurnIds, Backfilled, TakesClosest, EventKeys;
    if NoChoice(before, EventKeys(layout), i) {
      forall events, after | SameButTurnIds(events, layout) && Backfilled(before, events, after)
        ensures TakesClosest(after, i)
      {
        SameEventKeys(events, layout);
        NoChoiceMeansClosest(before, events, after, i);
      }
    } else {
      var events, after := ChoiceMisses(before, layout, i, t, u);
    }
  }

  lemma SameEventKeys<J, C, T>(events: seq<Event<J, C, T>>, layout: seq<Event<J, C, T>>)
    requires SameButTurnIds(events, layout)
    ensures EventKeys(events) == EventKeys(layout)
  {
    forall e | 0 <= e < |events| ensures EventKey(events[e]) == EventKey(layout[e]) {}
  }

  /** The donors of the filled table are the spans that will donate. */
  lemma DonorsAre<J, C, T>(before: seq<Span<J, C, T>>, events: seq<Event<J, C, T>>, after: seq<Span<J, C, T>>, d: nat,
                           i: nat)
    requires Backfilled(before, events, after) && d < |before| && i < |before|
    ensures Donor(after[d], after[i]) <==> WillDonate(before, EventKeys(events), d, i)
    ensures Donor(after[d], after[i]) ==> after[d].turnId == PartnerId(before, events, d)
  {
    hide RankMatch, IsEarliestId;
    assert RowBackfilled(before, events, after, d) && RowBackfilled(before, events, after, i);
    if before[d].spanType == ToolSpan { PartnerHasId(before, events, d); }
  }

  lemma PartnerHasId<J, C, T>(spans: seq<Span<J, C, T>>, events: seq<Event<J, C, T>>, i: nat)
    requires i < |spans|
    ensures RankMatch(SpanKeys(spans), EventKeys(events), i).Some? <==> PartnerId(spans, events, i).Some?
  {
    if e: nat :| RankMatch(SpanKeys(spans), EventKeys(events), i) == Some(e) {
      JoinFindsRankMatch(SpanKeys(spans), EventKeys(events), i, e);
      assert EventKeys(events)[e] == EventKey(events[e]);
    }
  }

  lemma NoChoiceMeansClosest<J, C, T>(before: seq<Span<J, C, T>>, events: seq<Event<J, C, T>>,
                                      after: seq<Span<J, C, T>>,
                                      i: nat)
    requires Backfilled(before, events, after) && i < |before| && before[i].spanType == LlmSpan
    requires NoChoice(before, EventKeys(events), i)
    ensures TakesClosest(after, i)
  {
    hide WillDonate, PartnerId, Donor;
    forall d: nat | d < |before| ensures Donor(after[d], after[i]) <==> WillDonate(before, EventKeys(events), d, i) {
      DonorsAre(before, events, after, d, i);
    }
    assert RowBackfilled(before, events, after, i);
  }

  /** Two tool spans before the LLM span, or one after it and none before: some turn ids tell the two rules apart. */
  lemma ChoiceMisses<J, C, T>(before: seq<Span<J, C, T>>, layout: seq<Event<J, C, T>>, i: nat, t: T, u: T)
    returns (events: seq<Event<J, C, T>>, after: seq<Span<J, C, T>>)
    requires i < |before| && before[i].spanType == LlmSpan && t != u && !NoChoice(before, EventKeys(layout), i)
    ensures SameButTurnIds(events, layout) && Backfilled(before, events, after) && !TakesClosest(after, i)
  {
    hide WillDonate, Backfilled, EventKeys, TakesClosest, SameButTurnIds;
    var d: nat :| d < |before| && WillDonate(before, EventKeys(layout), d, i);
    var first := FirstDonor(before, EventKeys(layout), d, i);
    var e := PartnerOf(before, EventKeys(layout), first, i);
    events := MarkEvent(layout, e, t, u);
    after := BackfillExists(before, events);
    SameEventKeys(events, layout);
    MarkedMisses(before, events, after, i, first, e, t, u);
  }

  lemma FirstDonor<J, C, T>(spans: seq<Span<J, C, T>>, keys: seq<Option<(J, C)>>, d: nat, i: nat) returns (first: nat)
    requires d < |spans| && i < |spans| && WillDonate(spans, keys, d, i)
    ensures first < |spans| && WillDonate(spans, keys, first, i)
    ensures forall c: nat | c < first :: !WillDonate(spans, keys, c, i)
  {
    hide WillDonate;
    if c: nat :| c < d && WillDonate(spans, keys, c, i) {
      first := FirstDonor(spans, keys, c, i);
    } else {
      first := d;
    }
  }

  lemma PartnerOf<J, C, T>(spans: seq<Span<J, C, T>>, keys: seq<Option<(J, C)>>, d: nat, i: nat) returns (e: nat)
    requires d < |spans| && i < |spans| && WillDonate(spans, keys, d, i)
    ensures RankMatch(SpanKeys(spans), keys, d) == Some(e)
  {
    e := RankMatch(SpanKeys(spans), keys, d).value;
  }

  /** Event `e` has the id `t`, every other event with an id has `u`. */
  ghost predicate Marked<J, C, T>(events: seq<Event<J, C, T>>, e: nat, t: T, u: T) {
    forall k | 0 <= k < |events| && events[k].turnId.Some? :: events[k].turnId == Some(if k == e then t else u)
  }

  lemma MarkEvent<J, C, T>(layout: seq<Event<J, C, T>>, e: nat, t: T, u: T) returns (events: seq<Event<J, C, T>>)
    ensures SameButTurnIds(events, layout) && Marked(events, e, t, u)
  {
    events := seq(|layout|, k requires 0 <= k < |layout| =>
      if layout[k].turnId.None? then layout[k] else layout[k].(turnId := Some(if k == e then t else u)));
  }

  lemma MarkedMisses<J, C, T>(before: seq<Span<J, C, T>>, events: seq<Event<J, C, T>>, after: seq<Span<J, C, T>>,
                              i: nat, first: nat, e: nat, t: T, u: T)
    requires Backfilled(before, events, after) && i < |before| && before[i].spanType == LlmSpan && t != u
    requires !NoChoice(before, EventKeys(events), i)
    requires first < |before| && WillDonate(before, EventKeys(events), first, i)
    requires forall c: nat | c < first :: !WillDonate(before, EventKeys(events), c, i)
    requires RankMatch(SpanKeys(before), EventKeys(events), first) == Some(e) && Marked(events, e, t, u)
    ensures !TakesClosest(after, i)
  {
    hide WillDonate, RankMatch, Donor, Marked;
    forall d: nat | d < |before|
      ensures Donor(after[d], after[i]) <==> WillDonate(before, EventKeys(events), d, i)
      ensures Donor(after[d], after[i]) ==> after[d].turnId == Some(if d == first then t else u)
    {
      DonorsAre(before, events, after, d, i);
      if WillDonate(before, EventKeys(events), d, i) { MarkedId(before, events, d, i, first, e, t, u); }
    }
    assert RowBackfilled(before, events, after, i);
    FirstIsNotClosest(after, i, first, t, u);
  }

  /** With ids that tell the first donor from all others, it is not the closest preceding one unless it is the only
      one before the span. */
  lemma FirstIsNotClosest<J, C, T>(spans: seq<Span<J, C, T>>, i: nat, first: nat, t: T, u: T)
    requires i < |spans| && first < |spans| && t != u && Donor(spans[first], spans[i])
    requires forall c: nat | c < first :: !Donor(spans[c], spans[i])
    requires forall d: nat | d < |spans| && Donor(spans[d], spans[i]) ::
      spans[d].turnId == Some(if d == first then t else u)
    requires first < i ==> exists c: nat :: c < i && c != first && Donor(spans[c], spans[i])
    requires IsEarliestId(spans, spans[i], spans[i].turnId)
    ensures !TakesClosest(spans, i)
  {
    hide Donor;
    assert spans[i].turnId == Some(t);
  }

  lemma MarkedId<J, C, T>(spans: seq<Span<J, C, T>>, events: seq<Event<J, C, T>>, d: nat, i: nat, first: nat, e: nat,
                          t: T, u: T)
    requires d < |spans| && i < |spans| && first < |spans| && WillDonate(spans, EventKeys(events), d, i)
    requires RankMatch(SpanKeys(spans), EventKeys(events), first) == Some(e) && Marked(events, e, t, u)
    ensures PartnerId(spans, events, d) == Some(if d == first then t else u)
  {
    var spanKeys, eventKeys := SpanKeys(spans), EventKeys(events);
    if d < first { MatchIsOrderedInjection(spanKeys, eventKeys, d, first); }
    if first < d { MatchIsOrderedInjection(spanKeys, eventKeys, first, d); }
    PartnerHasId(spans, events, d);
  }

  function FirstId<J(==), C, T>(spans: seq<Span<J, C, T>>, s: Span<J, C, T>): (id: Option<T>)
    ensures IsEarliestId(spans, s, id)
  {
    if spans == [] then None
    else
      var n := |spans| - 1;
      var earlier := FirstId(spans[..n], s);
      assert forall d | 0 <= d < n :: spans[..n][d] == spans[d];
      if earlier.Some? then earlier else if Donor(spans[n], s) then spans[n].turnId else None
  }

  /** The migration has a result on every input. */
  lemma BackfillExists<J, C, T>(before: seq<Span<J, C, T>>, events: seq<Event<J, C, T>>)
    returns (after: seq<Span<J, C, T>>)
    ensures Backfilled(before, events, after)
  {
    hide PartnerId, FirstId, IsEarliestId, IsJoinedId;
    var blank := seq(|before|, k requires 0 <= k < |before| => before[k].(turnId := None));
    var mid := seq(|blank|, k requires 0 <= k < |blank| =>
      if blank[k].spanType == ToolSpan then blank[k].(turnId := PartnerId(blank, events, k)) else blank[k]);
    forall k: nat | k < |blank| ensures ToolFilled(blank, events, k, mid[k]) {
      JoinedIdIsPartnerId(blank, events, k, PartnerId(blank, events, k));
    }
    after := seq(|mid|, k requires 0 <= k < |mid| =>
      if mid[k].spanType == LlmSpan && mid[k].turnId.None? then mid[k].(turnId := FirstId(mid, mid[k])) else mid[k]);
    BackfillHolds(before, events, blank, mid, after);
  }

  /** The smallest input on which the two rules differ: an LLM span, then the only tool span of its turn. */
  lemma DonorMayComeLater()
    returns (before: seq<Span<string, string, string>>, events: seq<Event<string, string, string>>,
             after: seq<Span<string, string, string>>)
    ensures before == [Span("j", LlmSpan, None, Some(1), None), Span("j", ToolSpan, Some("x"), Some(1), None)]
    ensures events == [Event("j", true, Some("x"), Some("t"))]
    ensures Backfilled(before, events, after)
    ensures after[0].turnId == Some("t") && IsClosestPrecedingId(after, 0, None)
  {
    hide RankMatch, IsEarliestId;
    before := [Span("j", LlmSpan, None, Some(1), None), Span("j", ToolSpan, Some("x"), Some(1), None)];
    events := [Event("j", true, Some("x"), Some("t"))];
    after := BackfillExists(before, events);
    assert RowBackfilled(before, events, after, 0) && RowBackfilled(before, events, after, 1);
    OnlyPair(SpanKeys(before), 1, EventKeys(events), 0);
    SecondIsEarliest(after, after[0].turnId);
  }

  lemma SecondIsEarliest(spans: seq<Span<string, string, string>>, id: Option<string>)
    requires |spans| == 2 && !Donor(spans[0], spans[0])
    requires Donor(spans[1], spans[0]) && IsEarliestId(spans, spans[0], id)
    ensures id == spans[1].turnId
  {
  }

  /** Two entries that are each the only one with their common key have rank one and match. */
  lemma OnlyPair<K>(spans: seq<Option<K>>, i: nat, events: seq<Option<K>>, e: nat)
    requires i < |spans| && e < |events| && spans[i].Some? && events[e] == spans[i]
    requires forall k: nat | k < |spans| && k != i :: spans[k] != spans[i]
    requires forall k: nat | k < |events| && k != e :: events[k] != events[e]
    ensures RankMatch(spans, events, i) == Some(e)
  {
    OnlyOne(spans, i);
    OnlyOne(events, e);
    JoinFindsRankMatch(spans, events, i, e);
  }

  lemma OnlyOne<K>(s: seq<Option<K>>, i: nat)
    requires i < |s| && s[i].Some? && forall e: nat | e < |s| && e != i :: s[e] != s[i]
    ensures Rank(s, i) == 1
  {
    RankIsPlace(s, i);
    assert Positions(s, s[i].value)[0] == i;
  }
}
