/** Algebra of the keyed array merge: idempotence and associativity, duplicates included. */
module KeyedLaws {
  import opened Common
  import opened KeyedMerge

  /** Keyed items behave the same whichever of two puts of different keys comes first, once one key is present. */
  lemma PutsCommute(l: seq<Value>, x: Value, z: Value, field: string)
    requires HasField(x, field) && HasField(z, field) && ItemKey(x, field) != ItemKey(z, field)
    requires LastIndex(l, field, ItemKey(x, field)) >= 0
    ensures PutItem(PutItem(l, x, field), z, field) == PutItem(PutItem(l, z, field), x, field)
  {
    hide LastIndex, PutItem;
    var i, k := LastIndex(l, field, ItemKey(x, field)), LastIndex(l, field, ItemKey(z, field));
    PutsAt(l, x, field);
    PutsAt(l, z, field);
    LastIndexUpdate(l, i, x, field, ItemKey(z, field));
    PutsAt(l[i := x], z, field);
    if k >= 0 {
      LastIndexUpdate(l, k, z, field, ItemKey(x, field));
      PutsAt(l[k := z], x, field);
      assert l[i := x][k := z] == l[k := z][i := x];
    } else {
      LastIndexAppend(l, z, field, ItemKey(x, field));
      PutsAt(l + [z], x, field);
      assert l[i := x] + [z] == (l + [z])[i := x];
    }
  }

  lemma PutsAt(l: seq<Value>, x: Value, field: string)
    requires HasField(x, field)
    ensures var i := LastIndex(l, field, ItemKey(x, field));
      PutItem(l, x, field) == if i >= 0 then l[i := x] else l + [x]
  {
  }

  /** A put overwrites an earlier put of the same key. */
  lemma PutAbsorbs(l: seq<Value>, y: Value, x: Value, field: string)
    requires HasField(x, field) && HasField(y, field) && ItemKey(x, field) == ItemKey(y, field)
    ensures PutItem(PutItem(l, y, field), x, field) == PutItem(l, x, field)
  {
    var i := LastIndex(l, field, ItemKey(x, field));
    if i >= 0 {
      LastIndexUpdate(l, i, y, field, ItemKey(x, field));
    } else {
      LastIndexAppend(l, y, field, ItemKey(x, field));
    }
  }

  lemma KeyedPrefix(m: seq<Value>, field: string)
    requires Keyed(m, field) && m != []
    ensures Keyed(m[..|m| - 1], field) && HasField(m[|m| - 1], field)
  {
    assert m[|m| - 1] in m;
    forall y | y in m[..|m| - 1] ensures y in m {}
  }

  lemma {:induction false} PutAllHas(a: seq<Value>, m: seq<Value>, field: string, key: Key)
    requires Keyed(m, field) && LastIndex(m, field, key) >= 0
    ensures LastIndex(PutAll(a, m, field), field, key) >= 0
  {
    KeyedPrefix(m, field);
    var init, last := m[..|m| - 1], m[|m| - 1];
    var l := PutAll(a, init, field);
    var j := LastIndex(l, field, ItemKey(last, field));
    if !Matches(last, field, key) {
      PutAllHas(a, init, field, key);
      if j >= 0 { LastIndexUpdate(l, j, last, field, key); } else { LastIndexAppend(l, last, field, key); }
    } else {
      if j >= 0 { LastIndexUpdate(l, j, last, field, key); } else { LastIndexAppend(l, last, field, key); }
    }
  }

  /** Putting `x` into the override before merging is the same as putting it into the merge. */
  lemma {:induction false} PutBeforeOrAfter(a: seq<Value>, m: seq<Value>, x: Value, field: string)
    requires Keyed(m, field) && HasField(x, field)
    ensures PutAll(a, PutItem(m, x, field), field) == PutItem(PutAll(a, m, field), x, field)
  {
    var key := ItemKey(x, field);
    var j := LastIndex(m, field, key);
    if j < 0 {
      PutAllOneMore(a, m, x, field);
    } else {
      var init, last := m[..|m| - 1], m[|m| - 1];
      KeyedPrefix(m, field);
      if j == |m| - 1 {
        assert PutItem(m, x, field) == init + [x];
        PutAllOneMore(a, init, x, field);
        PutAbsorbs(PutAll(a, init, field), last, x, field);
      } else {
        assert LastIndex(init, field, key) == j;
        assert PutItem(m, x, field) == PutItem(init, x, field) + [last];
        PutAllOneMore(a, PutItem(init, x, field), last, field);
        PutBeforeOrAfter(a, init, x, field);
        PutAllHas(a, init, field, key);
        PutsCommute(PutAll(a, init, field), x, last, field);
      }
    }
  }

  lemma {:induction false} PutAllKeyed(a: seq<Value>, m: seq<Value>, field: string)
    requires Keyed(a, field) && Keyed(m, field)
    ensures Keyed(PutAll(a, m, field), field)
    ensures forall y | y in PutAll(a, m, field) :: y in a || y in m
  {
    if m != [] {
      KeyedPrefix(m, field);
      PutAllKeyed(a, m[..|m| - 1], field);
      assert m == m[..|m| - 1] + [m[|m| - 1]];
    }
  }

  /** Layers of keyed arrays can be merged in either grouping, even when keys repeat within a layer. */
  lemma {:induction false} KeyedMergeAssociative(a: seq<Value>, b: seq<Value>, c: seq<Value>, field: string)
    requires Keyed(b, field) && Keyed(c, field)
    ensures PutAll(PutAll(a, b, field), c, field) == PutAll(a, PutAll(b, c, field), field)
  {
    if c != [] {
      var init, x := c[..|c| - 1], c[|c| - 1];
      KeyedPrefix(c, field);
      KeyedMergeAssociative(a, b, init, field);
      PutAllKeyed(b, init, field);
      PutBeforeOrAfter(a, PutAll(b, init, field), x, field);
    }
  }

  /** What replaying the first `k` items of a list over the whole list leaves at position `i`. */
  function ReplayedAt(o: seq<Value>, k: nat, i: nat, field: string): (v: Value)
    requires k <= |o| && i < |o| && HasField(o[i], field)
    ensures Matches(v, field, ItemKey(o[i], field))
  {
    var key := ItemKey(o[i], field);
    if LastIndex(o, field, key) == i && LastIndex(o[..k], field, key) >= 0 then o[LastIndex(o[..k], field, key)]
        else o[i]
  }

  ghost predicate Replayed(o: seq<Value>, k: nat, r: seq<Value>, field: string)
    requires k <= |o|
  {
    |r| == |o| && forall i | 0 <= i < |o| :: HasField(o[i], field) && r[i] == ReplayedAt(o, k, i, field)
  }

  lemma ReplayAt(o: seq<Value>, k: nat, i: nat, field: string)
    requires k < |o| && i < |o| && HasField(o[i], field) && HasField(o[k], field)
    ensures ReplayedAt(o, k + 1, i, field)
         == if LastIndex(o, field, ItemKey(o[k], field)) == i then o[k] else ReplayedAt(o, k, i, field)
  {
    assert o[..k + 1] == o[..k] + [o[k]];
    LastIndexAppend(o[..k], o[k], field, ItemKey(o[i], field));
  }

  lemma ReplayStep(o: seq<Value>, k: nat, r: seq<Value>, field: string)
    requires k < |o| && Replayed(o, k, r, field)
    ensures Replayed(o, k + 1, PutItem(r, o[k], field), field)
  {
    var j := LastIndex(o, field, ItemKey(o[k], field));
    ReplayedIndex(o, k, r, field, ItemKey(o[k], field));
    var after, n := PutItem(r, o[k], field), k + 1;
    assert j >= k && after == r[j := o[k]];
    forall i | 0 <= i < |o| ensures after[i] == ReplayedAt(o, n, i, field) {
      ReplayAt(o, k, i, field);
    }
  }

  lemma ReplayedIndex(o: seq<Value>, k: nat, r: seq<Value>, field: string, key: Key)
    requires k <= |o| && Replayed(o, k, r, field)
    ensures LastIndex(r, field, key) == LastIndex(o, field, key)
  {
    assert forall i | 0 <= i < |o| :: Matches(r[i], field, key) <==> Matches(o[i], field, key);
    LastIndexIs(r, field, key, LastIndex(o, field, key));
  }

  lemma ReplayNone(o: seq<Value>, field: string)
    requires Keyed(o, field)
    ensures Replayed(o, 0, o, field)
  {
    forall i | 0 <= i < |o| ensures HasField(o[i], field) { assert o[i] in o; }
  }

  lemma {:induction false} ReplayPrefix(o: seq<Value>, k: nat, field: string)
    requires Keyed(o, field) && k <= |o|
    ensures Replayed(o, k, PutAll(o, o[..k], field), field)
  {
    if k == 0 {
      ReplayNone(o, field);
    } else {
      ReplayPrefix(o, k - 1, field);
      ReplayMore(o, o[..k - 1], k - 1, field);
    }
  }

  lemma ReplayMore(o: seq<Value>, before: seq<Value>, k: nat, field: string)
    requires Keyed(o, field) && k < |o| && before == o[..k]
    requires Replayed(o, k, PutAll(o, before, field), field)
    ensures Replayed(o, k + 1, PutAll(o, o[..k + 1], field), field)
  {
    var r := PutAll(o, before, field);
    TakeOneMore(o, k);
    ReplayStep(o, k, r, field);
    PutAllOneMore(o, before, o[k], field);
  }

  /** Merging an array into itself changes nothing, also when its keys repeat. */
  lemma SelfMerge(o: seq<Value>, field: string)
    requires Keyed(o, field)
    ensures PutAll(o, o, field) == o
  {
    ReplayPrefix(o, |o|, field);
    assert o[..|o|] == o;
  }

  /** Applying the same override twice is applying it once. */
  lemma KeyedMergeIdempotent(b: seq<Value>, o: seq<Value>, field: string)
    requires Keyed(o, field)
    ensures PutAll(PutAll(b, o, field), o, field) == PutAll(b, o, field)
  {
    KeyedMergeAssociative(b, o, o, field);
    SelfMerge(o, field);
  }
}
