/** The collapse of the legacy activity buckets, statement by statement, on the two attribution tables. */
module BucketCollapse {
  import opened Common
  import opened FilterMaps
  import opened BucketMerge
  import opened BucketMoves

  /** One attribution table; a group is a (job, dimension) pair. */
  class AttributionTable<G(==), B(==)> {
    var rows: seq<Row<G, B>>

    constructor (rows: seq<Row<G, B>>)
      ensures this.rows == rows
    {
      this.rows := rows;
    }

    /** UPDATE ... FROM: every target row reads the table as it was before the statement. */
    method AddSources(legacy: B, target: B)
      modifies this
      ensures BucketMerge.AddsSources(old(rows), rows, legacy, target)
    {
      var before, mid := rows, [];
      for i := 0 to |before|
        invariant |mid| == i && rows == before
        invariant forall k | 0 <= k < i :: GainsSource(before, before[k], mid[k], legacy, target)
      {
        var row := before[i];
        if row.bucket == target && HasRow(before, row.group, legacy) {
          var j :| 0 <= j < |before| && IsRow(before[j], row.group, legacy);
          row := row.(vals := Ledger.Add(row.vals, before[j].vals));
        }
        mid := mid + [row];
      }
      rows := mid;
    }

    /** DELETE of the legacy rows whose group has a target row. */
    method DeleteMerged(legacy: B, target: B)
      modifies this
      ensures rows == FilterMap(old(rows), Undeleted(old(rows), legacy, target))
    {
      var before, kept := rows, [];
      for i := 0 to |before|
        invariant rows == before
        invariant kept == FilterMap(before[..i], Undeleted(before, legacy, target))
      {
        var row := before[i];
        TakeOneMore(before, i);
        FilterMapMore(before[..i], row, Undeleted(before, legacy, target));
        if !(row.bucket == legacy && HasRow(before, row.group, target)) { kept := kept + [row]; }
      }
      assert before[..|before|] == before;
      rows := kept;
    }

    /** UPDATE of the bucket name of the remaining legacy rows. */
    method RenameRest(legacy: B, target: B)
      modifies this
      ensures rows == FilterMap(old(rows), Renamed(legacy, target))
    {
      var before, renamed := rows, [];
      for i := 0 to |before|
        invariant rows == before
        invariant renamed == FilterMap(before[..i], Renamed(legacy, target))
      {
        var row := before[i];
        TakeOneMore(before, i);
        FilterMapMore(before[..i], row, Renamed(legacy, target));
        renamed := renamed + [if row.bucket == legacy then row.(bucket := target) else row];
      }
      assert before[..|before|] == before;
      rows := renamed;
    }

    method MergeBucket(legacy: B, target: B) returns (ghost mid: seq<Row<G, B>>)
      modifies this
      ensures MergesTo(old(rows), mid, rows, legacy, target)
    {
      AddSources(legacy, target);
      mid := rows;
      DeleteMerged(legacy, target);
      RenameRest(legacy, target);
    }
  }

  // ---- The migration ----

  datatype Activity = Delegation | Investigation | FeatureDev | Implementation | OtherActivity(name: string)

  /** The rows of the legacy label of each group have gone to the target label; with unique buckets, so have their
      values. */
  ghost predicate MovedInto<G(!new)>(rows: seq<Row<G, Activity>>, after: seq<Row<G, Activity>>, legacy: Activity,
                                     target: Activity)
  {
    forall g ::
      && (HasRow(after, g, target) <==> HasRow(rows, g, target) || HasRow(rows, g, legacy))
      && (Unique(rows) ==>
            Balance(after, g, target) == Ledger.Add(Balance(rows, g, target), Balance(rows, g, legacy)))
  }

  /** What the migration makes of one table. */
  ghost predicate Collapsed<G(!new)>(rows: seq<Row<G, Activity>>, after: seq<Row<G, Activity>>) {
    && MovedInto(rows, after, Delegation, Investigation)
    && MovedInto(rows, after, FeatureDev, Implementation)
    && (forall r | r in after :: r.bucket != Delegation && r.bucket != FeatureDev)
    && (forall name ::
        FilterMap(after, OnlyBucket(OtherActivity(name))) == FilterMap(rows, OnlyBucket(OtherActivity(name))))
    && (Unique(rows) ==> Unique(after) && TotalsKept(rows, after))
  }

  lemma UniqueKeepsTotals<G(!new)>(rows: seq<Row<G, Activity>>, mid: seq<Row<G, Activity>>,
                            after: seq<Row<G, Activity>>,
                                   legacy: Activity, target: Activity)
    requires legacy != target && Unique(rows) && MergesTo(rows, mid, after, legacy, target)
    ensures TotalsKept(rows, after)
  {
    forall g ensures GroupTotal(after, g) == GroupTotal(rows, g) {
      UniqueIsPaired(rows, legacy, target, g);
      PairedKeepsTotal(rows, mid, after, legacy, target, g);
    }
  }

  lemma FirstMoves<G(!new)>(rows: seq<Row<G, Activity>>, mid1: seq<Row<G, Activity>>, a: seq<Row<G, Activity>>,
                            mid2: seq<Row<G, Activity>>, after: seq<Row<G, Activity>>)
    requires MergesTo(rows, mid1, a, Delegation, Investigation)
    requires MergesTo(a, mid2, after, FeatureDev, Implementation)
    ensures MovedInto(rows, after, Delegation, Investigation)
  {
    hide MergesTo, HasRow, Balance, Unique;
    hide Ledger.Add;
    forall g
      ensures HasRow(after, g, Investigation) <==> HasRow(rows, g, Investigation) || HasRow(rows, g, Delegation)
      ensures Unique(rows) ==>
        Balance(after, g, Investigation) == Ledger.Add(Balance(rows, g, Investigation), Balance(rows, g, Delegation))
    {
      RowsMove(rows, mid1, a, Delegation, Investigation, g);
      OthersStay(a, mid2, after, FeatureDev, Implementation, g, Investigation);
      if Unique(rows) { BalancesMove(rows, mid1, a, Delegation, Investigation, g); }
    }
  }

  lemma SecondMoves<G(!new)>(rows: seq<Row<G, Activity>>, mid1: seq<Row<G, Activity>>, a: seq<Row<G, Activity>>,
                             mid2: seq<Row<G, Activity>>, after: seq<Row<G, Activity>>)
    requires MergesTo(rows, mid1, a, Delegation, Investigation)
    requires MergesTo(a, mid2, after, FeatureDev, Implementation)
    ensures MovedInto(rows, after, FeatureDev, Implementation)
  {
    hide MergesTo, HasRow, Balance, Unique;
    hide Ledger.Add;
    forall g
      ensures HasRow(after, g, Implementation) <==> HasRow(rows, g, Implementation) || HasRow(rows, g, FeatureDev)
      ensures Unique(rows) ==>
        Balance(after, g, Implementation) == Ledger.Add(Balance(rows, g, Implementation), Balance(rows, g, FeatureDev))
    {
      OthersStay(rows, mid1, a, Delegation, Investigation, g, Implementation);
      OthersStay(rows, mid1, a, Delegation, Investigation, g, FeatureDev);
      RowsMove(a, mid2, after, FeatureDev, Implementation, g);
      if Unique(rows) {
        MergeKeepsUnique(rows, mid1, a, Delegation, Investigation);
        BalancesMove(a, mid2, after, FeatureDev, Implementation, g);
      }
    }
  }

  lemma CollapseHolds<G(!new)>(rows: seq<Row<G, Activity>>, mid1: seq<Row<G, Activity>>, a: seq<Row<G, Activity>>,
                               mid2: seq<Row<G, Activity>>, after: seq<Row<G, Activity>>)
    requires MergesTo(rows, mid1, a, Delegation, Investigation)
    requires MergesTo(a, mid2, after, FeatureDev, Implementation)
    ensures Collapsed(rows, after)
  {
    FirstMoves(rows, mid1, a, mid2, after);
    SecondMoves(rows, mid1, a, mid2, after);
    hide MovedInto;
    NoLegacyRowLeft(rows, mid1, a, Delegation, Investigation);
    NoLegacyRowLeft(a, mid2, after, FeatureDev, Implementation);
    OtherBucketsUntouched(a, mid2, after, FeatureDev, Implementation, Delegation);
    forall r | r in after ensures r.bucket != Delegation {
      OnlyBucketMember(after, Delegation, r);
      OnlyBucketMember(a, Delegation, r);
    }
    forall name
      ensures FilterMap(after, OnlyBucket(OtherActivity(name))) == FilterMap(rows, OnlyBucket(OtherActivity(name)))
    {
      OtherBucketsUntouched(rows, mid1, a, Delegation, Investigation, OtherActivity(name));
      OtherBucketsUntouched(a, mid2, after, FeatureDev, Implementation, OtherActivity(name));
    }
    if Unique(rows) {
      MergeKeepsUnique(rows, mid1, a, Delegation, Investigation);
      MergeKeepsUnique(a, mid2, after, FeatureDev, Implementation);
      UniqueKeepsTotals(rows, mid1, a, Delegation, Investigation);
      UniqueKeepsTotals(a, mid2, after, FeatureDev, Implementation);
    }
  }

  /** `upgrade`: two merges on each table. */
  method Upgrade<G(==, !new)>(cost: AttributionTable<G, Activity>, latency: AttributionTable<G, Activity>)
    requires cost != latency
    modifies cost, latency
    ensures Collapsed(old(cost.rows), cost.rows) && Collapsed(old(latency.rows), latency.rows)
  {
    ghost var mid1 := cost.MergeBucket(Delegation, Investigation);
    ghost var a := cost.rows;
    ghost var mid2 := latency.MergeBucket(Delegation, Investigation);
    ghost var b := latency.rows;
    ghost var mid3 := cost.MergeBucket(FeatureDev, Implementation);
    ghost var mid4 := latency.MergeBucket(FeatureDev, Implementation);
    CollapseHolds(old(cost.rows), mid1, a, mid3, cost.rows);
    CollapseHolds(old(latency.rows), mid2, b, mid4, latency.rows);
  }
}
