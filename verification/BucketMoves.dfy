/** Where the rows of a legacy bucket go, and with which values. */
module BucketMoves {
  import opened Common
  import opened FilterMaps
  import opened Ledger
  import opened BucketMerge

  lemma {:induction false} FilterMapHas<T, U>(s: seq<T>, f: T -> Option<U>, i: nat, u: U)
    requires i < |s| && f(s[i]) == Some(u)
    ensures u in FilterMap(s, f)
  {
    if i < |s| - 1 { FilterMapHas(s[..|s| - 1], f, i, u); }
  }

  lemma HasRowIff<G, B>(rows: seq<Row<G, B>>, g: G, b: B)
    ensures HasRow(rows, g, b) <==> exists r :: r in rows && IsRow(r, g, b)
  {
    if r :| r in rows && IsRow(r, g, b) {
      var j :| 0 <= j < |rows| && rows[j] == r;
      assert IsRow(rows[j], g, b);
    }
  }

  lemma SurvivorIs<G, B>(rows: seq<Row<G, B>>, mid: seq<Row<G, B>>, i: nat, legacy: B, target: B, g: G)
    requires AddsSources(rows, mid, legacy, target) && i < |mid| && HasRow(rows, g, target)
    requires IsRow(rows[i], g, target) && legacy != target
    ensures Fate(rows, legacy, target)(mid[i]) == Some(mid[i]) && IsRow(mid[i], g, target)
  {
    assert GainsSource(rows, rows[i], mid[i], legacy, target);
  }

  lemma MoverIs<G, B>(rows: seq<Row<G, B>>, mid: seq<Row<G, B>>, i: nat, legacy: B, target: B, g: G)
    requires AddsSources(rows, mid, legacy, target) && i < |mid| && !HasRow(rows, g, target)
    requires IsRow(rows[i], g, legacy) && legacy != target
    ensures Fate(rows, legacy, target)(mid[i]) == Some(rows[i].(bucket := target))
  {
    assert GainsSource(rows, rows[i], mid[i], legacy, target);
  }

  lemma CameFrom<G, B>(rows: seq<Row<G, B>>, mid: seq<Row<G, B>>, legacy: B, target: B, g: G, r: Row<G, B>)
    requires r in FilterMap(mid, Fate(rows, legacy, target)) && IsRow(r, g, target)
    ensures HasRow(mid, g, target) || HasRow(mid, g, legacy)
  {
    FilterMapImage(mid, Fate(rows, legacy, target));
    var i :| 0 <= i < |mid| && Fate(rows, legacy, target)(mid[i]) == Some(r);
    assert IsRow(mid[i], g, target) || IsRow(mid[i], g, legacy);
  }

  /** A group has a row of the target bucket afterwards exactly when it had one of either bucket before. */
  lemma RowsMove<G, B>(rows: seq<Row<G, B>>, mid: seq<Row<G, B>>, after: seq<Row<G, B>>, legacy: B, target: B, g: G)
    requires legacy != target && MergesTo(rows, mid, after, legacy, target)
    ensures HasRow(after, g, target) <==> HasRow(rows, g, target) || HasRow(rows, g, legacy)
  {
    hide Add;
    var fate := Fate(rows, legacy, target);
    Fuse(rows, mid, legacy, target);
    SameRows(rows, mid, legacy, target, g, target);
    SameRows(rows, mid, legacy, target, g, legacy);
    HasRowIff(after, g, target);
    if HasRow(rows, g, target) {
      var i :| 0 <= i < |rows| && IsRow(rows[i], g, target);
      SurvivorIs(rows, mid, i, legacy, target, g);
      FilterMapHas(mid, fate, i, mid[i]);
    } else if HasRow(rows, g, legacy) {
      var i :| 0 <= i < |rows| && IsRow(rows[i], g, legacy);
      MoverIs(rows, mid, i, legacy, target, g);
      FilterMapHas(mid, fate, i, rows[i].(bucket := target));
    }
    if r :| r in after && IsRow(r, g, target) { CameFrom(rows, mid, legacy, target, g, r); }
  }

  /** What a row contributes to the target bucket of its group after the merge. */
  function MovedWeight<G(==), B(==)>(rows: seq<Row<G, B>>, legacy: B, target: B, g: G): Row<G, B> -> Bucket {
    (r: Row<G, B>) =>
      match Outcome(rows, legacy, target)(r)
      case None => ZERO
      case Some(u) => InBucket<G, B>(g, target)(u)
  }

  lemma MovedWeighs<G, B>(rows: seq<Row<G, B>>, r: Row<G, B>, legacy: B, target: B, g: G)
    requires legacy != target
    ensures MovedWeight(rows, legacy, target, g)(r) ==
      if IsRow(r, g, target) then Add(r.vals, Balance(rows, g, legacy))
      else if IsRow(r, g, legacy) && !HasRow(rows, g, target) then r.vals
      else ZERO
  {
    hide Add;
    var u := Outcome(rows, legacy, target)(r);
    assert MovedWeight(rows, legacy, target, g)(r) ==
      match u case None => ZERO case Some(x) => InBucket<G, B>(g, target)(x);
  }

  /** With unique buckets, the target bucket of each group holds afterwards what both buckets held before. */
  lemma BalancesMove<G, B>(rows: seq<Row<G, B>>, mid: seq<Row<G, B>>, after: seq<Row<G, B>>, legacy: B, target: B, g: G)
    requires legacy != target && Unique(rows) && MergesTo(rows, mid, after, legacy, target)
    ensures Balance(after, g, target) == Add(Balance(rows, g, target), Balance(rows, g, legacy))
  {
    hide Add;
    var w := MovedWeight(rows, legacy, target, g);
    MergeIsDetermined(rows, mid, after, legacy, target);
    SumOfFilterMap(rows, Outcome(rows, legacy, target), InBucket(g, target), w);
    forall i | 0 <= i < |rows| { MovedWeighs(rows, rows[i], legacy, target, g); }
    if HasRow(rows, g, target) {
      var j :| 0 <= j < |rows| && IsRow(rows[j], g, target);
      UniqueRow(rows, j, g, target);
      forall i | 0 <= i < |rows| && i != j ensures w(rows[i]) == ZERO {
        assert i < j ==> !IsRow(rows[i], rows[j].group, rows[j].bucket);
        assert j < i ==> !IsRow(rows[j], rows[i].group, rows[i].bucket);
      }
      OnlyOne(rows, w, j);
    } else {
      NoRow(rows, g, target);
      forall i | 0 <= i < |rows| ensures w(rows[i]) == InBucket(g, legacy)(rows[i]) {
        assert !IsRow(rows[i], g, target);
      }
      SameSums(rows, rows, w, InBucket(g, legacy));
      AddSwap(Balance(rows, g, legacy), ZERO, ZERO);
    }
  }

  lemma OnlyOne<G, B>(rows: seq<Row<G, B>>, w: Row<G, B> -> Bucket, j: nat)
    requires j < |rows| && forall i | 0 <= i < |rows| && i != j :: w(rows[i]) == ZERO
    ensures SumOf(rows, w) == w(rows[j])
  {
    hide Add;
    AddSwap(w(rows[j]), ZERO, ZERO);
    SumsDifferAt(rows, rows, w, Nothing(), j, w(rows[j]));
    ZeroSum(rows, Nothing());
  }

  /** A third bucket of a group keeps its rows and its values. */
  lemma OthersStay<G, B>(rows: seq<Row<G, B>>, mid: seq<Row<G, B>>, after: seq<Row<G, B>>, legacy: B, target: B, g: G,
                         b: B)
    requires MergesTo(rows, mid, after, legacy, target) && b != legacy && b != target
    ensures HasRow(after, g, b) <==> HasRow(rows, g, b)
    ensures Balance(after, g, b) == Balance(rows, g, b)
  {
    hide Add;
    OtherBucketsUntouched(rows, mid, after, legacy, target, b);
    HasRowInBucket(rows, g, b);
    HasRowInBucket(after, g, b);
    BalanceInBucket(rows, g, b);
    BalanceInBucket(after, g, b);
  }
}
