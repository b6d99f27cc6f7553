/** Folding a legacy bucket of an attribution table into its successor: one UPDATE ... FROM, one DELETE, one UPDATE.

    A group stands for a pair (job, dimension). Nothing in the schema makes (job, dimension, bucket) unique, so several
    rows may hold the same bucket of a group. */
module BucketMerge {
  import opened Common
  import opened FilterMaps
  import opened Ledger

  datatype Row<G, B> = Row(group: G, bucket: B, vals: Bucket)

  // ---- The three statements ----

  predicate IsRow<G(==), B(==)>(r: Row<G, B>, g: G, b: B) { r.group == g && r.bucket == b }

  predicate HasRow<G(==), B(==)>(rows: seq<Row<G, B>>, g: G, b: B) {
    exists j :: 0 <= j < |rows| && IsRow(rows[j], g, b)
  }

  /** A target row gains the values of one legacy row of its group; the database may take any of them. */
  ghost predicate GainsSource<G, B>(rows: seq<Row<G, B>>, before: Row<G, B>, after: Row<G, B>, legacy: B, target: B) {
    if before.bucket == target && HasRow(rows, before.group, legacy) then
      exists j :: 0 <= j < |rows| && IsRow(rows[j], before.group, legacy)
               && after == before.(vals := Add(before.vals, rows[j].vals))
    else after == before
  }

  ghost predicate AddsSources<G, B>(rows: seq<Row<G, B>>, mid: seq<Row<G, B>>, legacy: B, target: B) {
    |mid| == |rows| && forall i | 0 <= i < |rows| :: GainsSource(rows, rows[i], mid[i], legacy, target)
  }

  function Undeleted<G(==), B(==)>(all: seq<Row<G, B>>, legacy: B, target: B): Row<G, B> -> Option<Row<G, B>> {
    (r: Row<G, B>) => if r.bucket == legacy && HasRow(all, r.group, target) then None else Some(r)
  }

  function Renamed<G, B(==)>(legacy: B, target: B): Row<G, B> -> Option<Row<G, B>> {
    (r: Row<G, B>) => Some(if r.bucket == legacy then r.(bucket := target) else r)
  }

  /** What the second and third statement make of a row. */
  function Fate<G(==), B(==)>(all: seq<Row<G, B>>, legacy: B, target: B): Row<G, B> -> Option<Row<G, B>> {
    (r: Row<G, B>) =>
      if r.bucket != legacy then Some(r)
      else if HasRow(all, r.group, target) then None
      else Some(r.(bucket := target))
  }

  /** The merge leads from `rows` over `mid` to `after`. */
  ghost predicate MergesTo<G, B>(rows: seq<Row<G, B>>, mid: seq<Row<G, B>>, after: seq<Row<G, B>>, legacy: B,
                                 target: B)
  {
    && AddsSources(rows, mid, legacy, target)
    && after == FilterMap(FilterMap(mid, Undeleted(mid, legacy, target)), Renamed(legacy, target))
  }

  lemma SameRows<G, B>(rows: seq<Row<G, B>>, mid: seq<Row<G, B>>, legacy: B, target: B, g: G, b: B)
    requires AddsSources(rows, mid, legacy, target)
    ensures HasRow(mid, g, b) <==> HasRow(rows, g, b)
  {
    forall i | 0 <= i < |rows| ensures IsRow(mid[i], g, b) <==> IsRow(rows[i], g, b) {
      assert GainsSource(rows, rows[i], mid[i], legacy, target);
    }
  }

  lemma Fuse<G, B>(rows: seq<Row<G, B>>, mid: seq<Row<G, B>>, legacy: B, target: B)
    requires AddsSources(rows, mid, legacy, target)
    ensures FilterMap(FilterMap(mid, Undeleted(mid, legacy, target)), Renamed(legacy, target))
         == FilterMap(mid, Fate(rows, legacy, target))
  {
    FilterMapCompose(mid, Undeleted(mid, legacy, target), Renamed(legacy, target));
    forall i | 0 <= i < |mid|
      ensures Then(Undeleted(mid, legacy, target), Renamed(legacy, target))(mid[i])
          == Fate(rows, legacy, target)(mid[i])
    {
      SameRows(rows, mid, legacy, target, mid[i].group, target);
    }
    FilterMapSame(mid, mid, Then(Undeleted(mid, legacy, target), Renamed(legacy, target)), Fate(rows, legacy, target));
  }

  // ---- Counting rows and adding up values ----

  function Count<G(==), B(==)>(rows: seq<Row<G, B>>, g: G, b: B): nat {
    if rows == [] then 0 else Count(rows[..|rows| - 1], g, b) + if IsRow(rows[|rows| - 1], g, b) then 1 else 0
  }

  lemma {:induction false} CountPositive<G, B>(rows: seq<Row<G, B>>, g: G, b: B)
    ensures Count(rows, g, b) > 0 <==> HasRow(rows, g, b)
  {
    if rows != [] {
      CountPositive(rows[..|rows| - 1], g, b);
      var n := |rows| - 1;
      if j :| 0 <= j < n && IsRow(rows[..n][j], g, b) { assert IsRow(rows[j], g, b); }
      if j :| 0 <= j < |rows| && IsRow(rows[j], g, b) && j != n { assert IsRow(rows[..n][j], g, b); }
    }
  }

  /** A group's only row of a bucket. */
  lemma {:induction false} OnlyRow<G, B>(rows: seq<Row<G, B>>, g: G, b: B) returns (j: nat)
    requires Count(rows, g, b) == 1
    ensures j < |rows| && forall i | 0 <= i < |rows| :: IsRow(rows[i], g, b) <==> i == j
  {
    var n := |rows| - 1;
    if IsRow(rows[n], g, b) {
      j := n;
      CountPositive(rows[..n], g, b);
      forall i | 0 <= i < n ensures !IsRow(rows[i], g, b) { assert rows[..n][i] == rows[i]; }
    } else {
      j := OnlyRow(rows[..n], g, b);
      forall i | 0 <= i < n ensures IsRow(rows[i], g, b) <==> i == j { assert rows[..n][i] == rows[i]; }
    }
  }

  lemma {:induction false} TwoRows<G, B>(rows: seq<Row<G, B>>, g: G, b: B) returns (i: nat, j: nat)
    requires Count(rows, g, b) >= 2
    ensures i < j < |rows| && IsRow(rows[i], g, b) && IsRow(rows[j], g, b)
  {
    var n := |rows| - 1;
    if IsRow(rows[n], g, b) {
      CountPositive(rows[..n], g, b);
      i, j :| 0 <= i < n && IsRow(rows[..n][i], g, b) && j == n;
    } else {
      i, j := TwoRows(rows[..n], g, b);
    }
  }

  function InGroup<G(==), B>(g: G): Row<G, B> -> Bucket {
    (r: Row<G, B>) => if r.group == g then r.vals else ZERO
  }

  function InBucket<G(==), B(==)>(g: G, b: B): Row<G, B> -> Bucket {
    (r: Row<G, B>) => if IsRow(r, g, b) then r.vals else ZERO
  }

  function Outside<G(==), B(==)>(g: G, b: B): Row<G, B> -> Bucket {
    (r: Row<G, B>) => if r.group == g && r.bucket != b then r.vals else ZERO
  }

  /** The total of one group over all its buckets. */
  function GroupTotal<G(==), B>(rows: seq<Row<G, B>>, g: G): Bucket { SumOf(rows, InGroup(g)) }

  /** The total of one bucket of a group. */
  function Balance<G(==), B(==)>(rows: seq<Row<G, B>>, g: G, b: B): Bucket { SumOf(rows, InBucket(g, b)) }

  // ---- Totals after the merge ----

  /** What a row that meets its fate contributes to its group. */
  function FateWeight<G(==), B(==)>(rows: seq<Row<G, B>>, legacy: B, target: B, g: G): Row<G, B> -> Bucket {
    (r: Row<G, B>) => match Fate(rows, legacy, target)(r) case None => ZERO case Some(u) => InGroup<G, B>(g)(u)
  }

  lemma FateWeighs<G, B>(rows: seq<Row<G, B>>, r: Row<G, B>, legacy: B, target: B, g: G)
    ensures FateWeight(rows, legacy, target, g)(r) == if HasRow(rows, g, target) then Outside(g, legacy)(r)
        else InGroup(g)(r)
  {
    var fate := Fate(rows, legacy, target)(r);
    assert FateWeight(rows, legacy, target, g)(r) == match fate case None => ZERO case Some(u) => InGroup(g)(u);
  }

  /** With a target row in the group, the legacy rows are dropped; without one they are kept under the new name. */
  lemma FateTotal<G, B>(rows: seq<Row<G, B>>, mid: seq<Row<G, B>>, legacy: B, target: B, g: G)
    ensures GroupTotal(FilterMap(mid, Fate(rows, legacy, target)), g)
         == if HasRow(rows, g, target) then SumOf(mid, Outside(g, legacy)) else GroupTotal(mid, g)
  {
    var w := FateWeight(rows, legacy, target, g);
    SumOfFilterMap(mid, Fate(rows, legacy, target), InGroup(g), w);
    forall i | 0 <= i < |mid| { FateWeighs(rows, mid[i], legacy, target, g); }
    if HasRow(rows, g, target) {
      SameSums(mid, mid, w, Outside(g, legacy));
    } else {
      SameSums(mid, mid, w, InGroup(g));
    }
  }

  lemma PairGains<G, B>(rows: seq<Row<G, B>>, mid: seq<Row<G, B>>, legacy: B, target: B, g: G)
    requires legacy != target && AddsSources(rows, mid, legacy, target)
    requires Count(rows, g, legacy) == 1 && Count(rows, g, target) == 1
    ensures SumOf(mid, Outside(g, legacy)) == GroupTotal(rows, g)
  {
    var j := OnlyRow(rows, g, legacy);
    var i := OnlyRow(rows, g, target);
    assert GainsSource(rows, rows[i], mid[i], legacy, target);
    assert IsRow(rows[j], g, legacy) && IsRow(rows[i], g, target);
    forall k | 0 <= k < |rows| && k != i
      ensures Outside(g, legacy)(mid[k]) == Outside(g, legacy)(rows[k])
    {
      assert GainsSource(rows, rows[k], mid[k], legacy, target);
    }
    SumsDifferAt(mid, rows, Outside(g, legacy), Outside(g, legacy), i, rows[j].vals);
    SumsDifferAt(rows, rows, InGroup(g), Outside(g, legacy), j, rows[j].vals);
  }

  lemma UntouchedTotal<G, B>(rows: seq<Row<G, B>>, mid: seq<Row<G, B>>, legacy: B, target: B, g: G)
    requires AddsSources(rows, mid, legacy, target)
    requires !HasRow(rows, g, legacy) || !HasRow(rows, g, target)
    ensures GroupTotal(mid, g) == GroupTotal(rows, g)
    ensures !HasRow(rows, g, legacy) ==> SumOf(mid, Outside(g, legacy)) == GroupTotal(rows, g)
  {
    forall k | 0 <= k < |rows| ensures InGroup(g)(mid[k]) == InGroup(g)(rows[k]) {
      assert GainsSource(rows, rows[k], mid[k], legacy, target);
      assert rows[k].group == g && rows[k].bucket == target ==> IsRow(rows[k], g, target);
    }
    SameSums(mid, rows, InGroup(g), InGroup(g));
    if !HasRow(rows, g, legacy) {
      SameRows(rows, mid, legacy, target, g, legacy);
      forall k | 0 <= k < |mid| ensures Outside(g, legacy)(mid[k]) == InGroup(g)(mid[k]) {
        assert !IsRow(mid[k], g, legacy);
      }
      SameSums(mid, mid, Outside(g, legacy), InGroup(g));
    }
  }

  ghost predicate PairedIn<G, B>(rows: seq<Row<G, B>>, legacy: B, target: B, g: G) {
    Count(rows, g, legacy) > 0 && Count(rows, g, target) > 0 ==>
        Count(rows, g, legacy) == 1 && Count(rows, g, target) == 1
  }

  lemma PairedKeepsTotal<G, B>(rows: seq<Row<G, B>>, mid: seq<Row<G, B>>, after: seq<Row<G, B>>, legacy: B, target: B,
                               g: G)
    requires legacy != target && PairedIn(rows, legacy, target, g) && MergesTo(rows, mid, after, legacy, target)
    ensures GroupTotal(after, g) == GroupTotal(rows, g)
  {
    Fuse(rows, mid, legacy, target);
    FateTotal(rows, mid, legacy, target, g);
    CountPositive(rows, g, legacy);
    CountPositive(rows, g, target);
    if HasRow(rows, g, legacy) && HasRow(rows, g, target) {
      PairGains(rows, mid, legacy, target, g);
    } else {
      UntouchedTotal(rows, mid, legacy, target, g);
    }
  }

  // ---- Without pairing, some values are lost or counted twice ----

  const ONE := Bucket(0.0, 0, 0, 0, 0, 1)

  ghost predicate SameLayout<G, B>(rows: seq<Row<G, B>>, layout: seq<Row<G, B>>) {
    |rows| == |layout| && forall i | 0 <= i < |rows| ::
        rows[i].group == layout[i].group && rows[i].bucket == layout[i].bucket
  }

  /** The layout with a single call, booked on row `j`. */
  ghost predicate IsBooked<G, B>(rows: seq<Row<G, B>>, layout: seq<Row<G, B>>, j: nat) {
    && SameLayout(rows, layout)
    && j < |rows| && rows[j].vals == ONE
    && forall i | 0 <= i < |rows| && i != j :: rows[i].vals == ZERO
  }

  lemma Book<G, B>(layout: seq<Row<G, B>>, j: nat) returns (rows: seq<Row<G, B>>)
    requires j < |layout|
    ensures IsBooked(rows, layout, j)
  {
    rows := seq(|layout|, i requires 0 <= i < |layout| => layout[i].(vals := if i == j then ONE else ZERO));
  }

  /** The choice of row `k` as the source for all of group `g`. */
  ghost function Chosen<G, B>(rows: seq<Row<G, B>>, g: G, k: nat, r: Row<G, B>, legacy: B): (j: nat)
    requires k < |rows| && IsRow(rows[k], g, legacy) && HasRow(rows, r.group, legacy)
    ensures j < |rows| && IsRow(rows[j], r.group, legacy) && (r.group == g ==> j == k)
  {
    if r.group == g then k else var j :| 0 <= j < |rows| && IsRow(rows[j], r.group, legacy); j
  }

  ghost function Gained<G, B>(rows: seq<Row<G, B>>, g: G, k: nat, r: Row<G, B>, legacy: B, target: B): Row<G, B>
    requires k < |rows| && IsRow(rows[k], g, legacy)
  {
    if r.bucket == target && HasRow(rows, r.group, legacy)
    then r.(vals := Add(r.vals, rows[Chosen(rows, g, k, r, legacy)].vals))
    else r
  }

  function Nothing<G, B>(): Row<G, B> -> Bucket { (r: Row<G, B>) => ZERO }

  /** A run of the first statement in which all of group `g` takes row `k`. */
  lemma TakingRow<G, B>(rows: seq<Row<G, B>>, g: G, k: nat, legacy: B, target: B)
    returns (mid: seq<Row<G, B>>, after: seq<Row<G, B>>)
    requires k < |rows| && IsRow(rows[k], g, legacy)
    ensures MergesTo(rows, mid, after, legacy, target)
    ensures forall i | 0 <= i < |rows| ::
      IsRow(rows[i], g, target) ==> mid[i] == rows[i].(vals := Add(rows[i].vals, rows[k].vals))
    ensures forall i | 0 <= i < |rows| :: rows[i].bucket != target ==> mid[i] == rows[i]
  {
    mid := seq(|rows|, i requires 0 <= i < |rows| => Gained(rows, g, k, rows[i], legacy, target));
    forall i | 0 <= i < |rows| ensures GainsSource(rows, rows[i], mid[i], legacy, target) {
      assert mid[i] == Gained(rows, g, k, rows[i], legacy, target);
    }
    after := FilterMap(FilterMap(mid, Undeleted(mid, legacy, target)), Renamed(legacy, target));
  }

  lemma BookedTotal<G, B>(rows: seq<Row<G, B>>, layout: seq<Row<G, B>>, g: G, j: nat)
    requires IsBooked(rows, layout, j) && rows[j].group == g
    ensures GroupTotal(rows, g) == ONE
  {
    hide Add;
    var v, w := InGroup<G, B>(g), Nothing<G, B>();
    AddSwap(ONE, ZERO, ZERO);
    SumsDifferAt(rows, rows, v, w, j, ONE);
    ZeroSum(rows, w);
  }

  /** With two legacy rows, the one that is not chosen is lost. */
  lemma SecondLegacyRowIsLost<G, B>(layout: seq<Row<G, B>>, legacy: B, target: B, g: G)
    returns (rows: seq<Row<G, B>>, mid: seq<Row<G, B>>, after: seq<Row<G, B>>)
    requires legacy != target && Count(layout, g, legacy) >= 2 && HasRow(layout, g, target)
    ensures SameLayout(rows, layout) && MergesTo(rows, mid, after, legacy, target)
        && GroupTotal(after, g) != GroupTotal(rows, g)
  {
    hide Add;
    var j, k := TwoRows(layout, g, legacy);
    rows := Book(layout, j);
    mid, after := TakingRow(rows, g, k, legacy, target);
    SameLayoutSameRows(rows, layout, g, target);
    Fuse(rows, mid, legacy, target);
    FateTotal(rows, mid, legacy, target, g);
    AddSwap(ZERO, ZERO, ZERO);
    forall i | 0 <= i < |mid| ensures Outside(g, legacy)(mid[i]) == ZERO {
      if mid[i].group == g && mid[i].bucket != legacy {
        assert i != j && rows[i].vals == ZERO && rows[k].vals == ZERO;
        assert rows[i].bucket == target ==> IsRow(rows[i], g, target);
      }
    }
    ZeroSum(mid, Outside(g, legacy));
    BookedTotal(rows, layout, g, j);
  }

  lemma SameLayoutSameRows<G, B>(rows: seq<Row<G, B>>, layout: seq<Row<G, B>>, g: G, b: B)
    requires SameLayout(rows, layout)
    ensures HasRow(rows, g, b) <==> HasRow(layout, g, b)
  {
    forall i | 0 <= i < |rows| ensures IsRow(rows[i], g, b) <==> IsRow(layout[i], g, b) {
    }
  }

  /** With two target rows, the legacy values are counted twice. */
  lemma SecondTargetRowDoubles<G, B>(layout: seq<Row<G, B>>, legacy: B, target: B, g: G)
    returns (rows: seq<Row<G, B>>, mid: seq<Row<G, B>>, after: seq<Row<G, B>>)
    requires legacy != target && HasRow(layout, g, legacy) && Count(layout, g, target) >= 2
    ensures SameLayout(rows, layout) && MergesTo(rows, mid, after, legacy, target)
        && GroupTotal(after, g) != GroupTotal(rows, g)
  {
    hide Add;
    var j :| 0 <= j < |layout| && IsRow(layout[j], g, legacy);
    var i0, i1 := TwoRows(layout, g, target);
    rows := Book(layout, j);
    mid, after := TakingRow(rows, g, j, legacy, target);
    SameLayoutSameRows(rows, layout, g, target);
    assert IsRow(layout[i0], g, target);
    AddSwap(ONE, ZERO, ZERO);
    AddSwap(ZERO, ONE, ZERO);
    Fuse(rows, mid, legacy, target);
    FateTotal(rows, mid, legacy, target, g);
    forall i | 0 <= i < |mid| ensures Outside(g, legacy)(mid[i]).calls >= 0 {
      assert rows[i].vals.calls >= 0;
      assert mid[i].group == g && rows[i].bucket == target ==> IsRow(rows[i], g, target);
    }
    assert IsRow(rows[i0], g, target) && IsRow(rows[i1], g, target);
    TwoContribute(mid, Outside(g, legacy), i0, i1);
    BookedTotal(rows, layout, g, j);
  }

  /** Every group that holds both buckets holds exactly one row of each. */
  ghost predicate Paired<G(!new), B>(rows: seq<Row<G, B>>, legacy: B, target: B) {
    forall g :: PairedIn(rows, legacy, target, g)
  }

  ghost predicate TotalsKept<G(!new), B>(rows: seq<Row<G, B>>, after: seq<Row<G, B>>) {
    forall g :: GroupTotal(after, g) == GroupTotal(rows, g)
  }

  /** Totals per group survive the merge, whatever the values and whichever source the database takes, exactly when
      every group that holds both buckets holds one row of each. */
  lemma TotalsKeptIffPaired<G(!new), B(!new)>(layout: seq<Row<G, B>>, legacy: B, target: B)
    requires legacy != target
    ensures Paired(layout, legacy, target) <==>
      forall rows, mid, after :: SameLayout(rows, layout) && MergesTo(rows, mid, after, legacy, target)
          ==> TotalsKept(rows, after)
  {
    if Paired(layout, legacy, target) {
      forall rows, mid, after | SameLayout(rows, layout) && MergesTo(rows, mid, after, legacy, target)
        ensures TotalsKept(rows, after)
      {
        forall g ensures GroupTotal(after, g) == GroupTotal(rows, g) {
          assert PairedIn(layout, legacy, target, g);
          SameLayoutSameCount(rows, layout, g, legacy);
          SameLayoutSameCount(rows, layout, g, target);
          PairedKeepsTotal(rows, mid, after, legacy, target, g);
        }
      }
    } else {
      var g :| !PairedIn(layout, legacy, target, g);
      CountPositive(layout, g, legacy);
      CountPositive(layout, g, target);
      var rows, mid, after;
      if Count(layout, g, legacy) >= 2 {
        rows, mid, after := SecondLegacyRowIsLost(layout, legacy, target, g);
      } else {
        rows, mid, after := SecondTargetRowDoubles(layout, legacy, target, g);
      }
      assert !TotalsKept(rows, after);
    }
  }

  lemma {:induction false} SameLayoutSameCount<G, B>(rows: seq<Row<G, B>>, layout: seq<Row<G, B>>, g: G, b: B)
    requires SameLayout(rows, layout)
    ensures Count(rows, g, b) == Count(layout, g, b)
  {
    if rows != [] { SameLayoutSameCount(rows[..|rows| - 1], layout[..|layout| - 1], g, b); }
  }

  // ---- What the merge leaves alone ----

  function OnlyBucket<G, B(==)>(b: B): Row<G, B> -> Option<Row<G, B>> {
    (r: Row<G, B>) => if r.bucket == b then Some(r) else None
  }

  /** The rows of a third bucket are the same, in the same order. */
  lemma OtherBucketsUntouched<G, B>(rows: seq<Row<G, B>>, mid: seq<Row<G, B>>, after: seq<Row<G, B>>, legacy: B,
                                    target: B, b: B)
    requires MergesTo(rows, mid, after, legacy, target) && b != legacy && b != target
    ensures FilterMap(after, OnlyBucket(b)) == FilterMap(rows, OnlyBucket(b))
  {
    hide Add;
    var fate, only := Fate(rows, legacy, target), OnlyBucket<G, B>(b);
    Fuse(rows, mid, legacy, target);
    FilterMapCompose(mid, fate, only);
    forall i | 0 <= i < |rows| ensures Then(fate, only)(mid[i]) == only(rows[i]) {
      assert GainsSource(rows, rows[i], mid[i], legacy, target);
    }
    FilterMapSame(mid, rows, Then(fate, only), only);
  }

  lemma NoLegacyRowLeft<G, B>(rows: seq<Row<G, B>>, mid: seq<Row<G, B>>, after: seq<Row<G, B>>, legacy: B, target: B)
    requires legacy != target && MergesTo(rows, mid, after, legacy, target)
    ensures forall r | r in after :: r.bucket != legacy
  {
    Fuse(rows, mid, legacy, target);
    FilterMapImage(mid, Fate(rows, legacy, target));
  }

  /** Running the merge again changes nothing. */
  lemma SecondMergeIsIdentity<G, B>(after: seq<Row<G, B>>, mid: seq<Row<G, B>>, again: seq<Row<G, B>>, legacy: B,
                                    target: B)
    requires (forall r | r in after :: r.bucket != legacy) && MergesTo(after, mid, again, legacy, target)
    ensures again == after
  {
    hide Add;
    Fuse(after, mid, legacy, target);
    forall i | 0 <= i < |after| ensures mid[i] == after[i] {
      assert GainsSource(after, after[i], mid[i], legacy, target);
    }
    assert mid == after;
    FilterMapAll(after, Fate(after, legacy, target));
  }

  // ---- With unique buckets ----

  predicate Unique<G(==), B(==)>(rows: seq<Row<G, B>>) {
    forall i, j | 0 <= i < j < |rows| :: !IsRow(rows[i], rows[j].group, rows[j].bucket)
  }

  lemma UniqueRow<G, B>(rows: seq<Row<G, B>>, j: nat, g: G, b: B)
    requires Unique(rows) && j < |rows| && IsRow(rows[j], g, b)
    ensures Balance(rows, g, b) == rows[j].vals
    ensures Count(rows, g, b) == 1
  {
    hide Add;
    AddSwap(rows[j].vals, ZERO, ZERO);
    SumsDifferAt(rows, rows, InBucket(g, b), Nothing(), j, rows[j].vals);
    ZeroSum(rows, Nothing());
    if Count(rows, g, b) >= 2 {
      var i, k := TwoRows(rows, g, b);
      assert false;
    }
    CountPositive(rows, g, b);
  }

  lemma NoRow<G, B>(rows: seq<Row<G, B>>, g: G, b: B)
    requires !HasRow(rows, g, b)
    ensures Balance(rows, g, b) == ZERO && Count(rows, g, b) == 0
  {
    ZeroSum(rows, InBucket(g, b));
    CountPositive(rows, g, b);
  }

  lemma UniqueIsPaired<G, B>(rows: seq<Row<G, B>>, legacy: B, target: B, g: G)
    requires Unique(rows)
    ensures PairedIn(rows, legacy, target, g)
  {
    CountPositive(rows, g, legacy);
    CountPositive(rows, g, target);
    if i, j :| 0 <= i < |rows| && 0 <= j < |rows| && IsRow(rows[i], g, legacy) && IsRow(rows[j], g, target) {
      UniqueRow(rows, i, g, legacy);
      UniqueRow(rows, j, g, target);
    }
  }

  /** What the whole merge makes of a row when buckets are unique. */
  function Outcome<G(==), B(==)>(rows: seq<Row<G, B>>, legacy: B, target: B): Row<G, B> -> Option<Row<G, B>> {
    (r: Row<G, B>) =>
      if r.bucket == legacy then (if HasRow(rows, r.group, target) then None else Some(r.(bucket := target)))
      else if r.bucket == target then Some(r.(vals := Add(r.vals, Balance(rows, r.group, legacy))))
      else Some(r)
  }

  /** With unique buckets the result does not depend on the choice of sources. */
  lemma MergeIsDetermined<G, B>(rows: seq<Row<G, B>>, mid: seq<Row<G, B>>, after: seq<Row<G, B>>, legacy: B, target: B)
    requires legacy != target && Unique(rows) && MergesTo(rows, mid, after, legacy, target)
    ensures after == FilterMap(rows, Outcome(rows, legacy, target))
  {
    hide Add;
    var fate, outcome := Fate(rows, legacy, target), Outcome(rows, legacy, target);
    Fuse(rows, mid, legacy, target);
    forall i | 0 <= i < |rows| ensures fate(mid[i]) == outcome(rows[i]) {
      DeterminedRow(rows, rows[i], mid[i], legacy, target);
    }
    FilterMapSame(mid, rows, fate, outcome);
  }

  lemma DeterminedRow<G, B>(rows: seq<Row<G, B>>, before: Row<G, B>, after: Row<G, B>, legacy: B, target: B)
    requires legacy != target && Unique(rows) && GainsSource(rows, before, after, legacy, target)
    ensures Fate(rows, legacy, target)(after) == Outcome(rows, legacy, target)(before)
  {
    hide Add;
    if before.bucket == target {
      if HasRow(rows, before.group, legacy) {
        var j :| 0 <= j < |rows| && IsRow(rows[j], before.group, legacy)
            && after == before.(vals := Add(before.vals, rows[j].vals));
        UniqueRow(rows, j, before.group, legacy);
      } else {
        NoRow(rows, before.group, legacy);
        AddSwap(before.vals, ZERO, ZERO);
        AddSwap(ZERO, before.vals, ZERO);
      }
    }
  }

  predicate Clash<G(==), B(==)>(a: Option<Row<G, B>>, b: Option<Row<G, B>>) {
    a.Some? && b.Some? && IsRow(a.value, b.value.group, b.value.bucket)
  }

  lemma {:induction false} UniqueImage<T, G, B>(s: seq<T>, f: T -> Option<Row<G, B>>)
    requires forall k, l | 0 <= k < l < |s| :: !Clash(f(s[k]), f(s[l]))
    ensures Unique(FilterMap(s, f))
  {
    if s != [] {
      var n := |s| - 1;
      UniqueImage(s[..n], f);
      FilterMapImage(s[..n], f);
      forall u | u in FilterMap(s[..n], f) ensures !Clash(Some(u), f(s[n])) {
        var k :| 0 <= k < n && f(s[..n][k]) == Some(u);
        assert !Clash(f(s[k]), f(s[n]));
      }
      var init := FilterMap(s[..n], f);
      if f(s[n]).Some? {
        forall i | 0 <= i < |init| ensures !IsRow(init[i], f(s[n]).value.group, f(s[n]).value.bucket) {
          assert init[i] in init;
        }
      }
    }
  }

  lemma OutcomesDoNotClash<G, B>(rows: seq<Row<G, B>>, k: nat, l: nat, legacy: B, target: B)
    requires legacy != target && Unique(rows) && k < l < |rows|
    ensures !Clash(Outcome(rows, legacy, target)(rows[k]), Outcome(rows, legacy, target)(rows[l]))
  {
    hide Add;
    var r, q := rows[k], rows[l];
    assert !IsRow(r, q.group, q.bucket);
    assert r.bucket == target ==> IsRow(rows[k], r.group, target);
    assert q.bucket == target ==> IsRow(rows[l], q.group, target);
  }

  /** The merge keeps buckets unique. */
  lemma MergeKeepsUnique<G, B>(rows: seq<Row<G, B>>, mid: seq<Row<G, B>>, after: seq<Row<G, B>>, legacy: B, target: B)
    requires legacy != target && Unique(rows) && MergesTo(rows, mid, after, legacy, target)
    ensures Unique(after)
  {
    hide Add;
    MergeIsDetermined(rows, mid, after, legacy, target);
    forall k, l | 0 <= k < l < |rows|
      ensures !Clash(Outcome(rows, legacy, target)(rows[k]), Outcome(rows, legacy, target)(rows[l]))
    {
      OutcomesDoNotClash(rows, k, l, legacy, target);
    }
    UniqueImage(rows, Outcome(rows, legacy, target));
  }

  // ---- The two merges of the migration commute ----

  lemma {:induction false} OnlyBucketMember<G, B>(rows: seq<Row<G, B>>, b: B, r: Row<G, B>)
    ensures r in FilterMap(rows, OnlyBucket(b)) <==> r in rows && r.bucket == b
  {
    if rows != [] {
      OnlyBucketMember(rows[..|rows| - 1], b, r);
      assert rows == rows[..|rows| - 1] + [rows[|rows| - 1]];
    }
  }

  lemma HasRowInBucket<G, B>(rows: seq<Row<G, B>>, g: G, b: B)
    ensures HasRow(rows, g, b) <==> HasRow(FilterMap(rows, OnlyBucket(b)), g, b)
  {
    var only := FilterMap(rows, OnlyBucket(b));
    if HasRow(rows, g, b) {
      var j :| 0 <= j < |rows| && IsRow(rows[j], g, b);
      OnlyBucketMember(rows, b, rows[j]);
    }
    if HasRow(only, g, b) {
      var j :| 0 <= j < |only| && IsRow(only[j], g, b);
      OnlyBucketMember(rows, b, only[j]);
    }
  }

  lemma BalanceInBucket<G, B>(rows: seq<Row<G, B>>, g: G, b: B)
    ensures Balance(rows, g, b) == SumOf(FilterMap(rows, OnlyBucket(b)), InGroup(g))
  {
    SumOfFilterMap(rows, OnlyBucket(b), InGroup(g), InBucket(g, b));
  }

  /** A merge of other buckets does not change what this merge makes of a row. */
  lemma SameOutcome<G, B>(rows: seq<Row<G, B>>, other: seq<Row<G, B>>, legacy: B, target: B, r: Row<G, B>)
    requires FilterMap(rows, OnlyBucket(legacy)) == FilterMap(other, OnlyBucket(legacy))
    requires FilterMap(rows, OnlyBucket(target)) == FilterMap(other, OnlyBucket(target))
    ensures Outcome(rows, legacy, target)(r) == Outcome(other, legacy, target)(r)
  {
    hide Add;
    HasRowInBucket(rows, r.group, target);
    HasRowInBucket(other, r.group, target);
    BalanceInBucket(rows, r.group, legacy);
    BalanceInBucket(other, r.group, legacy);
  }

  /** Merging two pairs of buckets one after the other, in terms of the first table alone. */
  lemma TwoMerges<G, B>(rows: seq<Row<G, B>>, mid: seq<Row<G, B>>, a: seq<Row<G, B>>, mid': seq<Row<G, B>>,
                        ab: seq<Row<G, B>>,
                        o1: B, n1: B, o2: B, n2: B)
    requires o1 != n1 && o2 != n2 && o1 != o2 && o1 != n2 && n1 != o2 && n1 != n2
    requires Unique(rows) && MergesTo(rows, mid, a, o1, n1) && MergesTo(a, mid', ab, o2, n2)
    ensures ab == FilterMap(rows, Then(Outcome(rows, o1, n1), Outcome(rows, o2, n2)))
  {
    hide Add;
    MergeKeepsUnique(rows, mid, a, o1, n1);
    MergeIsDetermined(rows, mid, a, o1, n1);
    MergeIsDetermined(a, mid', ab, o2, n2);
    OtherBucketsUntouched(rows, mid, a, o1, n1, o2);
    OtherBucketsUntouched(rows, mid, a, o1, n1, n2);
    forall i | 0 <= i < |a| ensures Outcome(a, o2, n2)(a[i]) == Outcome(rows, o2, n2)(a[i]) {
      SameOutcome(a, rows, o2, n2, a[i]);
    }
    FilterMapSame(a, a, Outcome(a, o2, n2), Outcome(rows, o2, n2));
    FilterMapCompose(rows, Outcome(rows, o1, n1), Outcome(rows, o2, n2));
  }

  /** With unique buckets, the merges of two disjoint pairs of buckets may run in either order. */
  lemma MergesCommute<G, B>(rows: seq<Row<G, B>>, o1: B, n1: B, o2: B, n2: B,
                            mid1: seq<Row<G, B>>, a: seq<Row<G, B>>, mid2: seq<Row<G, B>>, ab: seq<Row<G, B>>,
                            mid3: seq<Row<G, B>>, b: seq<Row<G, B>>, mid4: seq<Row<G, B>>, ba: seq<Row<G, B>>)
    requires o1 != n1 && o2 != n2 && o1 != o2 && o1 != n2 && n1 != o2 && n1 != n2
    requires Unique(rows)
    requires MergesTo(rows, mid1, a, o1, n1) && MergesTo(a, mid2, ab, o2, n2)
    requires MergesTo(rows, mid3, b, o2, n2) && MergesTo(b, mid4, ba, o1, n1)
    ensures ab == ba
  {
    hide Add;
    var first, second := Outcome(rows, o1, n1), Outcome(rows, o2, n2);
    TwoMerges(rows, mid1, a, mid2, ab, o1, n1, o2, n2);
    TwoMerges(rows, mid3, b, mid4, ba, o2, n2, o1, n1);
    forall i | 0 <= i < |rows| ensures Then(first, second)(rows[i]) == Then(second, first)(rows[i]) {
      OutcomesCommute(rows, rows[i], o1, n1, o2, n2);
    }
    FilterMapSame(rows, rows, Then(first, second), Then(second, first));
  }

  lemma OutcomesCommute<G, B>(rows: seq<Row<G, B>>, r: Row<G, B>, o1: B, n1: B, o2: B, n2: B)
    requires o1 != n1 && o2 != n2 && o1 != o2 && o1 != n2 && n1 != o2 && n1 != n2
    ensures Then(Outcome(rows, o1, n1), Outcome(rows, o2, n2))(r)
        == Then(Outcome(rows, o2, n2), Outcome(rows, o1, n1))(r)
  {
    hide Add;
  }
}
