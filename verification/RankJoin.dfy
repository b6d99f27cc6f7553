/** Joining two lists on key and on rank within the key, against first-in-first-out consumption.

    An entry without a key takes no part. Lists are in id order. */
module RankJoin {
  import opened Common

  /** The positions of a key, in order. */
  function Positions<K(==)>(s: seq<Option<K>>, k: K): (p: seq<nat>)
    ensures forall m | 0 <= m < |p| :: p[m] < |s| && s[p[m]] == Some(k)
    ensures forall e: nat | e < |s| && s[e] == Some(k) :: e in p
    ensures forall m, n | 0 <= m < n < |p| :: p[m] < p[n]
  {
    if s == [] then []
    else
      var last := |s| - 1;
      var rest := Positions(s[..last], k);
      assert forall e: nat | e < last :: s[..last][e] == s[e];
      if s[last] == Some(k) then rest + [last] else rest
  }

  /** ROW_NUMBER over the key: how many entries with this key there are up to and including this one. */
  function Rank<K(==)>(s: seq<Option<K>>, i: nat): nat
    requires i < |s| && s[i].Some?
  {
    |Positions(s[..i + 1], s[i].value)|
  }

  lemma {:induction false} AscendingIsSet(p: seq<nat>, s: set<nat>)
    requires forall m, n | 0 <= m < n < |p| :: p[m] < p[n]
    requires forall x :: x in p <==> x in s
    ensures |p| == |s|
  {
    if p == [] {
      assert s == {};
    } else {
      var n := |p| - 1;
      assert p == p[..n] + [p[n]];
      AscendingIsSet(p[..n], s - {p[n]});
    }
  }

  /** The rank counts the entries with this key up to and including this one. */
  lemma RankCounts<K>(s: seq<Option<K>>, i: nat)
    requires i < |s| && s[i].Some?
    ensures Rank(s, i) == |set j | 0 <= j <= i && s[j] == s[i]|
  {
    var next := i + 1;
    var prefix, k, all := s[..next], s[i].value, set j: nat | 0 <= j <= i && s[j] == s[i];
    var p := Positions(prefix, k);
    forall x: nat ensures x in p <==> x in all {
      if x in all { assert prefix[x] == s[x]; }
    }
    AscendingIsSet(p, all);
    assert all == set j | 0 <= j <= i && s[j] == s[i];
  }

  /** The join condition: same key, same rank. */
  predicate Joined<K(==)>(spans: seq<Option<K>>, events: seq<Option<K>>, i: nat, e: nat) {
    && i < |spans| && e < |events|
    && spans[i].Some? && events[e] == spans[i]
    && Rank(spans, i) == Rank(events, e)
  }

  lemma PlaceOf<K>(s: seq<Option<K>>, k: K, e: nat) returns (m: nat)
    requires e < |s| && s[e] == Some(k)
    ensures m < |Positions(s, k)| && Positions(s, k)[m] == e
  {
    var p := Positions(s, k);
    assert e in p;
    m :| 0 <= m < |p| && p[m] == e;
  }

  /** The positions within a prefix are the positions below its length. */
  lemma {:induction false} PositionsPrefix<K>(s: seq<Option<K>>, k: K, n: nat)
    requires n <= |s|
    ensures Positions(s[..n], k) <= Positions(s, k)
    decreases |s|
  {
    if n < |s| {
      var init := s[..|s| - 1];
      PositionsPrefix(init, k, n);
      assert init[..n] == s[..n];
    } else {
      assert s[..n] == s;
    }
  }

  lemma PlaceInPrefix<K>(s: seq<Option<K>>, k: K, n: nat, m: nat)
    requires n <= |s| && m < |Positions(s, k)|
    ensures m < |Positions(s[..n], k)| <==> Positions(s, k)[m] < n
  {
    PositionsPrefix(s, k, n);
    var p, q := Positions(s, k), Positions(s[..n], k);
    if p[m] < n {
      assert s[..n][p[m]] == s[p[m]];
      var j := PlaceOf(s[..n], k, p[m]);
      assert p[j] == q[j];
    }
    if m < |q| { assert q[m] == p[m]; }
  }

  lemma PrefixLength<K>(s: seq<Option<K>>, k: K, m: nat)
    requires m < |Positions(s, k)|
    ensures |Positions(s[..Positions(s, k)[m] + 1], k)| == m + 1
  {
    var p := Positions(s, k);
    var n := p[m] + 1;
    PositionsPrefix(s, k, n);
    PlaceInPrefix(s, k, n, m);
    if m + 1 < |p| { PlaceInPrefix(s, k, n, m + 1); }
  }

  /** An entry's rank tells its place among the positions of its key. */
  lemma RankIsPlace<K>(s: seq<Option<K>>, i: nat)
    requires i < |s| && s[i].Some?
    ensures var p := Positions(s, s[i].value); 1 <= Rank(s, i) <= |p| && p[Rank(s, i) - 1] == i
  {
    hide Positions;
    var m := PlaceOf(s, s[i].value, i);
    PrefixLength(s, s[i].value, m);
  }

  /** The partner that the join finds. */
  function RankMatch<K(==)>(spans: seq<Option<K>>, events: seq<Option<K>>, i: nat): Option<nat>
    requires i < |spans|
  {
    if spans[i].None? then None
    else
      var p, r := Positions(events, spans[i].value), Rank(spans, i);
      if 1 <= r <= |p| then Some(p[r - 1]) else None
  }

  /** The join has at most one row per span, namely this partner. */
  lemma JoinFindsRankMatch<K>(spans: seq<Option<K>>, events: seq<Option<K>>, i: nat, e: nat)
    requires i < |spans|
    ensures Joined(spans, events, i, e) <==> RankMatch(spans, events, i) == Some(e)
  {
    if spans[i].Some? {
      var k := spans[i].value;
      if e < |events| && events[e] == Some(k) { RankIsPlace(events, e); }
      if RankMatch(spans, events, i) == Some(e) {
        PrefixLength(events, k, Rank(spans, i) - 1);
      }
    }
  }

  /** A span stays without partner exactly when its rank exceeds the number of events with its key. */
  lemma UnmatchedIffRankExceeds<K>(spans: seq<Option<K>>, events: seq<Option<K>>, i: nat)
    requires i < |spans| && spans[i].Some?
    ensures RankMatch(spans, events, i).None? <==> Rank(spans, i) > |Positions(events, spans[i].value)|
  {
    RankIsPlace(spans, i);
  }

  /** No event is used twice, and partners keep the order of their spans within a key. */
  lemma MatchIsOrderedInjection<K>(spans: seq<Option<K>>, events: seq<Option<K>>, i: nat, j: nat)
    requires i < j < |spans|
    requires RankMatch(spans, events, i).Some? && RankMatch(spans, events, j).Some?
    ensures RankMatch(spans, events, i) != RankMatch(spans, events, j)
    ensures spans[i] == spans[j] ==> RankMatch(spans, events, i).value < RankMatch(spans, events, j).value
  {
    var p, q := Positions(events, spans[i].value), Positions(events, spans[j].value);
    RankIsPlace(spans, i);
    RankIsPlace(spans, j);
    if spans[i] == spans[j] {
      var s, m, n := Positions(spans, spans[i].value), Rank(spans, i) - 1, Rank(spans, j) - 1;
      assert s[m] == i && s[n] == j;
      assert m < n;
    }
  }

  // ---- First in, first out ----

  /** The first event with this key that is not used yet. */
  ghost predicate IsEarliestUnused<K>(events: seq<Option<K>>, k: K, used: set<nat>, found: Option<nat>) {
    match found
    case Some(e) =>
      && e < |events| && events[e] == Some(k) && e !in used
      && forall d | 0 <= d < e && events[d] == Some(k) :: d in used
    case None => forall d | 0 <= d < |events| && events[d] == Some(k) :: d in used
  }

  /** The partners of the first spans, and the events they have used up. */
  ghost predicate Consumed<K>(spans: seq<Option<K>>, events: seq<Option<K>>, partners: seq<Option<nat>>,
                              used: set<nat>)
  {
    && |partners| <= |spans|
    && (forall i | 0 <= i < |partners| :: partners[i] == RankMatch(spans, events, i))
    && (forall e :: e in used <==> exists i :: 0 <= i < |partners| && partners[i] == Some(e))
  }

  /** How many of the first `n` entries have the key. */
  function Before<K(==)>(s: seq<Option<K>>, n: nat, k: K): nat
    requires n <= |s|
  {
    |Positions(s[..n], k)|
  }

  /** After `n` spans, the used events of a key are its first ones, one for each span with the key. */
  lemma UsedAreFirst<K>(spans: seq<Option<K>>, events: seq<Option<K>>, partners: seq<Option<nat>>, used: set<nat>,
                        k: K, m: nat)
    requires Consumed(spans, events, partners, used) && m < |Positions(events, k)|
    ensures Positions(events, k)[m] in used <==> m < Before(spans, |partners|, k)
  {
    hide Positions, Rank;
    var n, p, s := |partners|, Positions(events, k), Positions(spans, k);
    PositionsPrefix(spans, k, n);
    if m < Before(spans, n, k) {
      PlaceInPrefix(spans, k, n, m);
      RankOfPosition(spans, k, m);
      assert partners[s[m]] == Some(p[m]);
    }
    if p[m] in used {
      var i :| 0 <= i < n && partners[i] == Some(p[m]);
      RankOfPartner(spans, events, i, k, m);
      PlaceInPrefix(spans, k, n, m);
    }
  }

  lemma RankOfPartner<K>(spans: seq<Option<K>>, events: seq<Option<K>>, i: nat, k: K, m: nat)
    requires i < |spans| && m < |Positions(events, k)| && RankMatch(spans, events, i) == Some(Positions(events, k)[m])
    ensures m < |Positions(spans, k)| && Positions(spans, k)[m] == i
  {
    JoinFindsRankMatch(spans, events, i, Positions(events, k)[m]);
    PrefixLength(events, k, m);
    RankIsPlace(spans, i);
  }

  lemma RankOfPosition<K>(s: seq<Option<K>>, k: K, m: nat)
    requires m < |Positions(s, k)|
    ensures Positions(s, k)[m] < |s| && s[Positions(s, k)[m]] == Some(k) && Rank(s, Positions(s, k)[m]) == m + 1
  {
    PrefixLength(s, k, m);
  }

  lemma NextRank<K>(s: seq<Option<K>>, n: nat)
    requires n < |s| && s[n].Some?
    ensures Rank(s, n) == Before(s, n, s[n].value) + 1
  {
    assert s[..n + 1][..n] == s[..n];
  }

  /** The first event of a key beyond those that earlier spans have used. */
  lemma {:induction false} FirstBeyond<K>(spans: seq<Option<K>>, events: seq<Option<K>>, partners: seq<Option<nat>>,
                                          used: set<nat>, k: K)
    requires Consumed(spans, events, partners, used)
    ensures var p, c := Positions(events, k), Before(spans, |partners|, k);
      IsEarliestUnused(events, k, used, if c < |p| then Some(p[c]) else None)
  {
    assert |partners| <= |spans|;
    hide Positions, Consumed, Before;
    var p, c := Positions(events, k), Before(spans, |partners|, k);
    forall m: nat | m < |p| ensures p[m] in used <==> m < c {
      UsedAreFirst(spans, events, partners, used, k, m);
    }
    forall d | 0 <= d < |events| && events[d] == Some(k) && (c < |p| ==> d < p[c]) ensures d in used {
      var m := PlaceOf(events, k, d);
      if c < |p| { PlaceBelow(p, m, c); }
    }
    if c < |p| { assert p[c] < |events| && events[p[c]] == Some(k) && p[c] !in used; }
  }

  lemma PlaceBelow(p: seq<nat>, m: nat, c: nat)
    requires forall i, j | 0 <= i < j < |p| :: p[i] < p[j]
    requires m < |p| && c < |p| && p[m] < p[c]
    ensures m < c
  {
  }

  lemma EarliestIsOne<K>(events: seq<Option<K>>, k: K, used: set<nat>, a: Option<nat>, b: Option<nat>)
    requires IsEarliestUnused(events, k, used, a) && IsEarliestUnused(events, k, used, b)
    ensures a == b
  {
  }

  /** The earliest unused event is the one whose rank equals the next span's. */
  lemma {:induction false} EarliestUnusedIsRankMatch<K>(spans: seq<Option<K>>, events: seq<Option<K>>,
                                                        partners: seq<Option<nat>>, used: set<nat>, found: Option<nat>)
    requires Consumed(spans, events, partners, used) && |partners| < |spans| && spans[|partners|].Some?
    requires IsEarliestUnused(events, spans[|partners|].value, used, found)
    ensures found == RankMatch(spans, events, |partners|)
  {
    var n, k := |partners|, spans[|partners|].value;
    FirstBeyond(spans, events, partners, used, k);
    NextRank(spans, n);
    hide Positions, Rank, Before, Consumed, IsEarliestUnused;
    var p, c := Positions(events, k), Before(spans, n, k);
    EarliestIsOne(events, k, used, found, if c < |p| then Some(p[c]) else None);
  }

  method EarliestUnused<K(==)>(events: seq<Option<K>>, k: K, used: set<nat>) returns (found: Option<nat>)
    ensures IsEarliestUnused(events, k, used, found)
  {
    for e := 0 to |events|
      invariant forall d | 0 <= d < e && events[d] == Some(k) :: d in used
    {
      if events[e] == Some(k) && e !in used { return Some(e); }
    }
    return None;
  }

  /** Each span in turn takes the earliest event with its key that is still unused: the same partners as the join's. */
  method Consume<K(==)>(spans: seq<Option<K>>, events: seq<Option<K>>) returns (partners: seq<Option<nat>>)
    ensures |partners| == |spans|
    ensures forall i | 0 <= i < |spans| :: partners[i] == RankMatch(spans, events, i)
  {
    partners := [];
    var used: set<nat> := {};
    for i := 0 to |spans|
      invariant |partners| == i && Consumed(spans, events, partners, used)
    {
      var found: Option<nat> := None;
      if spans[i].Some? {
        found := EarliestUnused(events, spans[i].value, used);
        EarliestUnusedIsRankMatch(spans, events, partners, used, found);
      }
      ConsumedMore(spans, events, partners, used, found);
      partners := partners + [found];
      used := if found.Some? then used + {found.value} else used;
    }
  }

  lemma ConsumedMore<K>(spans: seq<Option<K>>, events: seq<Option<K>>, partners: seq<Option<nat>>, used: set<nat>,
                        found: Option<nat>)
    requires Consumed(spans, events, partners, used) && |partners| < |spans|
    requires found == RankMatch(spans, events, |partners|)
    ensures Consumed(spans, events, partners + [found], if found.Some? then used + {found.value} else used)
  {
    hide RankMatch;
    var more := partners + [found];
    forall e ensures (exists i :: 0 <= i < |more| && more[i] == Some(e)) <==> e in used || found == Some(e) {
      if i :| 0 <= i < |partners| && partners[i] == Some(e) { assert more[i] == Some(e); }
      if found == Some(e) { assert more[|partners|] == Some(e); }
    }
  }
}
