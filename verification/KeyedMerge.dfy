/** TOML values and the merge of arrays of tables by an identifier field. */
module KeyedMerge {
  import opened Common

  datatype Value =
    | Table(fields: map<string, Value>)
    | Array(items: seq<Value>)
    | Text(s: string)
    | Integer(n: int)
    | Float(r: real)
    | Boolean(b: bool)
    | Stamp(date: string)

  datatype MergeError = UnhashableKey

  /** Dictionary keys as Python compares them: True, 1 and 1.0 are one key. Arrays and tables cannot be keys. */
  datatype Key = TextKey(s: string) | NumberKey(r: real) | StampKey(date: string) | NoKey(v: Value)

  function KeyOf(v: Value): Key {
    match v
    case Text(s) => TextKey(s)
    case Integer(n) => NumberKey(n as real)
    case Float(r) => NumberKey(r)
    case Boolean(b) => NumberKey(if b then 1.0 else 0.0)
    case Stamp(d) => StampKey(d)
    case _ => NoKey(v)
  }

  predicate IsNumber(v: Value) { v.Integer? || v.Float? || v.Boolean? }

  /** The number a scalar compares as: True is 1 and False is 0. */
  function NumberIn(v: Value): real
    requires IsNumber(v)
  {
    match v
    case Integer(n) => n as real
    case Float(r) => r
    case Boolean(b) => if b then 1.0 else 0.0
  }

  /** Two identifiers that a dictionary takes for one: equal texts, equal dates, or numbers of one value whatever their
      types. Identifiers of different families are always two. */
  predicate SameIdentifier(v: Value, w: Value) {
    match v
    case Text(s) => w.Text? && w.s == s
    case Stamp(d) => w.Stamp? && w.date == d
    case _ => IsNumber(v) && IsNumber(w) && NumberIn(v) == NumberIn(w)
  }

  /** Arrays and tables have no key; of all other values, two have one key exactly when they are one identifier. */
  lemma SameKeyIff(v: Value, w: Value)
    ensures KeyOf(v).NoKey? <==> v.Array? || v.Table?
    ensures !KeyOf(v).NoKey? ==> (KeyOf(v) == KeyOf(w) <==> SameIdentifier(v, w))
  {
  }

  predicate HasField(item: Value, field: string) {
    item.Table? && field in item.fields
  }

  predicate Keyed(items: seq<Value>, field: string) {
    forall item | item in items :: HasField(item, field)
  }

  function ItemKey(item: Value, field: string): Key
    requires HasField(item, field)
  {
    KeyOf(item.fields[field])
  }

  predicate Unhashable(item: Value, field: string) {
    HasField(item, field) && ItemKey(item, field).NoKey?
  }

  predicate Matches(item: Value, field: string, key: Key) {
    HasField(item, field) && ItemKey(item, field) == key
  }

  /** The last position whose item carries the key, or -1. */
  function LastIndex(items: seq<Value>, field: string, key: Key): (i: int)
    ensures -1 <= i < |items|
    ensures i >= 0 ==> Matches(items[i], field, key)
    ensures forall j | i < j < |items| :: !Matches(items[j], field, key)
  {
    if items == [] then -1
    else if Matches(items[|items| - 1], field, key) then |items| - 1
    else LastIndex(items[..|items| - 1], field, key)
  }

  /** Adds one override item: it replaces the last item of its key, or goes to the end. */
  function PutItem(items: seq<Value>, x: Value, field: string): (r: seq<Value>)
    ensures forall y | y in r :: y in items || y == x
    ensures x in r
  {
    if HasField(x, field) && LastIndex(items, field, ItemKey(x, field)) >= 0 then
      var r := items[LastIndex(items, field, ItemKey(x, field)) := x];
      assert r[LastIndex(items, field, ItemKey(x, field))] == x;
      r
    else
      assert (items + [x])[|items|] == x;
      items + [x]
  }

  function PutAll(items: seq<Value>, override: seq<Value>, field: string): seq<Value> {
    if override == [] then items
    else PutItem(PutAll(items, override[..|override| - 1], field), override[|override| - 1], field)
  }

  function TablesOf(items: seq<Value>): (r: seq<Value>)
    ensures (forall item | item in items :: item.Table?) ==> r == items
    ensures forall item :: item in r <==> item in items && item.Table?
  {
    if items == [] then []
    else
      var rest, last := TablesOf(items[..|items| - 1]), items[|items| - 1];
      assert items == items[..|items| - 1] + [last];
      if last.Table? then rest + [last] else rest
  }

  /** The index built by the code: each key present leads to the last item carrying it. */
  ghost predicate IndexRight(index: map<Key, nat>, items: seq<Value>, field: string) {
    forall key ::
      if key in index then LastIndex(items, field, key) == index[key] else LastIndex(items, field, key) == -1
  }

  lemma LastIndexAppend(items: seq<Value>, x: Value, field: string, key: Key)
    ensures LastIndex(items + [x], field, key) == if Matches(x, field, key) then |items|
        else LastIndex(items, field, key)
  {
    assert (items + [x])[..|items|] == items;
  }

  lemma LastIndexIs(items: seq<Value>, field: string, key: Key, i: int)
    requires -1 <= i < |items| && (i >= 0 ==> Matches(items[i], field, key))
    requires forall j | i < j < |items| :: !Matches(items[j], field, key)
    ensures LastIndex(items, field, key) == i
  {
  }

  lemma LastIndexUpdate(items: seq<Value>, j: nat, x: Value, field: string, key: Key)
    requires j < |items| && HasField(items[j], field) && HasField(x, field)
        && ItemKey(items[j], field) == ItemKey(x, field)
    ensures LastIndex(items[j := x], field, key) == LastIndex(items, field, key)
  {
    var r, i := items[j := x], LastIndex(items, field, key);
    assert forall k | 0 <= k < |items| :: Matches(r[k], field, key) <==> Matches(items[k], field, key);
    LastIndexIs(r, field, key, i);
  }

  lemma IndexAppend(index: map<Key, nat>, items: seq<Value>, x: Value, field: string)
    requires IndexRight(index, items, field)
    ensures IndexRight(if HasField(x, field) then index[ItemKey(x, field) := |items|] else index, items + [x], field)
  {
    forall key { LastIndexAppend(items, x, field, key); }
  }

  lemma IndexReplace(index: map<Key, nat>, items: seq<Value>, x: Value, field: string)
    requires IndexRight(index, items, field) && HasField(x, field) && ItemKey(x, field) in index
    ensures LastIndex(items, field, ItemKey(x, field)) == index[ItemKey(x, field)]
    ensures IndexRight(index, items[index[ItemKey(x, field)] := x], field)
  {
    var j := index[ItemKey(x, field)];
    assert LastIndex(items, field, ItemKey(x, field)) == j;
    forall key { LastIndexUpdate(items, j, x, field, key); }
  }

  predicate NoUnhashable(items: seq<Value>, field: string) {
    forall item | item in items :: !Unhashable(item, field)
  }

  /** The first loop: base items that are no tables are dropped, the others indexed by their identifier. */
  method IndexBase(base: seq<Value>, field: string) returns (r: Result<seq<Value>, MergeError>, index: map<Key, nat>)
    ensures r == if NoUnhashable(base, field) then Success(TablesOf(base)) else Failure(UnhashableKey)
    ensures r.Success? ==> IndexRight(index, r.value, field)
  {
    var result: seq<Value> := [];
    index := map[];
    for i := 0 to |base|
      invariant NoUnhashable(base[..i], field)
      invariant result == TablesOf(base[..i])
      invariant IndexRight(index, result, field)
    {
      var item := base[i];
      assert base[..i + 1] == base[..i] + [item];
      if item.Table? {
        IndexAppend(index, result, item, field);
        if field in item.fields {
          var key := KeyOf(item.fields[field]);
          if key.NoKey? {
            assert Unhashable(base[i], field) && base[i] in base;
            return Failure(UnhashableKey), index;
          }
          index := index[key := |result|];
        }
        result := result + [item];
      }
    }
    assert base[..|base|] == base;
    r := Success(result);
  }

  /** The two items carry the field with one identifier. */
  predicate SameItem(x: Value, y: Value, field: string) {
    HasField(x, field) && HasField(y, field) && SameIdentifier(x.fields[field], y.fields[field])
  }

  lemma SameItemIff(x: Value, y: Value, field: string)
    requires HasField(x, field) && HasField(y, field) && !Unhashable(x, field)
    ensures ItemKey(x, field) == ItemKey(y, field) <==> SameItem(x, y, field)
  {
    SameKeyIff(x.fields[field], y.fields[field]);
  }

  /** No override item from position `k` on carries the identifier of `item`. */
  ghost predicate Unmatched(item: Value, override: seq<Value>, k: nat, field: string) {
    forall j | k <= j < |override| :: !SameItem(override[j], item, field)
  }

  /** One more override item leaves every item alone that does not carry its identifier. */
  lemma PutLeavesOthers(items: seq<Value>, x: Value, item: Value, field: string)
    requires item in items && !Unhashable(x, field) && !SameItem(x, item, field)
    ensures item in PutItem(items, x, field)
  {
    var i :| 0 <= i < |items| && items[i] == item;
    var r := PutItem(items, x, field);
    if HasField(x, field) && HasField(item, field) { SameItemIff(x, item, field); }
    assert r[i] == item;
  }

  /** An item that is there once the first `k` override items are merged stays, unless a later one carries its
      identifier. */
  lemma {:induction false} UnmatchedStays(items: seq<Value>, override: seq<Value>, k: nat, item: Value, field: string)
    requires k <= |override| && NoUnhashable(override, field)
    requires item in PutAll(items, override[..k], field) && Unmatched(item, override, k, field)
    ensures item in PutAll(items, override, field)
    decreases |override| - k
  {
    if k == |override| {
      assert override[..k] == override;
    } else {
      hide PutAll, PutItem, NoUnhashable, SameItem;
      var next := k + 1;
      assert !Unhashable(override[k], field) by { AllHashable(override, k, field); }
      PutLeavesOthers(PutAll(items, override[..k], field), override[k], item, field);
      TakeOneMore(override, k);
      PutAllOneMore(items, override[..k], override[k], field);
      UnmatchedStays(items, override, next, item, field);
    }
  }

  lemma AllHashable(items: seq<Value>, k: nat, field: string)
    requires NoUnhashable(items, field) && k < |items|
    ensures !Unhashable(items[k], field)
  {
    assert items[k] in items;
  }

  lemma NothingPut(items: seq<Value>, override: seq<Value>, field: string)
    ensures PutAll(items, override[..0], field) == items
  {
  }

  lemma JustPut(items: seq<Value>, override: seq<Value>, k: nat, field: string)
    requires k < |override|
    ensures override[k] in PutAll(items, override[..k + 1], field)
  {
    TakeOneMore(override, k);
    PutAllOneMore(items, override[..k], override[k], field);
  }

  lemma {:induction false} NothingElse(items: seq<Value>, override: seq<Value>, field: string)
    ensures forall y | y in PutAll(items, override, field) :: y in items || y in override
  {
    if override != [] {
      var init, last := override[..|override| - 1], override[|override| - 1];
      assert override == init + [last];
      NothingElse(items, init, field);
    }
  }

  /** What the merge keeps, in terms of identifiers: base tables that no override item names, override items that no
      later one names, and nothing from anywhere else. */
  ghost predicate KeepsUnnamed(base: seq<Value>, override: seq<Value>, r: seq<Value>, field: string) {
    && (forall item | item in base && item.Table? && Unmatched(item, override, 0, field) :: item in r)
    && (forall k: nat | k < |override| && UnmatchedAfter(override, k, field) :: override[k] in r)
    && (forall y | y in r :: (y in base && y.Table?) || y in override)
  }

  ghost predicate UnmatchedAfter(override: seq<Value>, k: nat, field: string)
    requires k < |override|
  {
    Unmatched(override[k], override, k + 1, field)
  }

  lemma MergeKeepsUnnamed(base: seq<Value>, override: seq<Value>, field: string)
    requires NoUnhashable(override, field)
    ensures KeepsUnnamed(base, override, PutAll(TablesOf(base), override, field), field)
  {
    hide PutAll, NoUnhashable, Unmatched;
    var start := TablesOf(base);
    NothingElse(start, override, field);
    forall item | item in base && item.Table? && Unmatched(item, override, 0, field)
      ensures item in PutAll(start, override, field)
    {
      NothingPut(start, override, field);
      UnmatchedStays(start, override, 0, item, field);
    }
    forall k: nat | k < |override| && UnmatchedAfter(override, k, field)
      ensures override[k] in PutAll(start, override, field)
    {
      JustPut(start, override, k, field);
      UnmatchedStays(start, override, k + 1, override[k], field);
    }
  }

  /** The two loops of `_merge_by_key`: override items that are no tables are appended, and an identifier that cannot
      be a dictionary key stops the merge. */
  method MergeByKey(base: seq<Value>, override: seq<Value>, field: string) returns (r: Result<seq<Value>, MergeError>)
    ensures r == if NoUnhashable(base, field) && NoUnhashable(override, field)
                 then Success(PutAll(TablesOf(base), override, field)) else Failure(UnhashableKey)
    ensures r.Success? ==> KeepsUnnamed(base, override, r.value, field)
  {
    var start;
    var index: map<Key, nat>;
    start, index := IndexBase(base, field);
    if start.Failure? { return Failure(UnhashableKey); }
    var result := start.value;
    for i := 0 to |override|
      invariant NoUnhashable(override[..i], field)
      invariant result == PutAll(TablesOf(base), override[..i], field)
      invariant IndexRight(index, result, field)
    {
      var item := override[i];
      assert override[..i + 1] == override[..i] + [item] && override[..i + 1][..i] == override[..i];
      if !item.Table? {
        IndexAppend(index, result, item, field);
        result := result + [item];
      } else if field in item.fields && KeyOf(item.fields[field]).NoKey? {
        assert Unhashable(override[i], field) && override[i] in override;
        return Failure(UnhashableKey);
      } else if field in item.fields && KeyOf(item.fields[field]) in index {
        IndexReplace(index, result, item, field);
        result := result[index[KeyOf(item.fields[field])] := item];
      } else {
        IndexAppend(index, result, item, field);
        if field in item.fields { index := index[KeyOf(item.fields[field]) := |result|]; }
        result := result + [item];
      }
    }
    assert override[..|override|] == override;
    MergeKeepsUnnamed(base, override, field);
    return Success(result);
  }

  // ---- Unique keys: the ordered override ----

  ghost predicate UniqueIn(items: seq<Value>, field: string) {
    Keyed(items, field) &&
    forall i, j | 0 <= i < j < |items| :: !Matches(items[j], field, ItemKey(items[i], field))
  }

  function HasKey(items: seq<Value>, field: string, key: Key): bool {
    LastIndex(items, field, key) >= 0
  }

  /** The last override item of a base item's key, or the base item itself. */
  function Winner(item: Value, override: seq<Value>, field: string): (w: Value)
    requires HasField(item, field)
    ensures HasField(w, field) && ItemKey(w, field) == ItemKey(item, field)
  {
    var k := LastIndex(override, field, ItemKey(item, field));
    if k >= 0 then override[k] else item
  }

  /** Base items in base order, each replaced by the override item of its key if there is one. */
  function Overridden(base: seq<Value>, override: seq<Value>, field: string): (r: seq<Value>)
    requires Keyed(base, field)
    ensures |r| == |base|
    ensures forall i | 0 <= i < |r| :: HasField(base[i], field) && r[i] == Winner(base[i], override, field)
  {
    if base == [] then []
    else
      assert base[0] in base;
      [Winner(base[0], override, field)] + Overridden(base[1..], override, field)
  }

  /** Override items whose key the base does not have, in override order. */
  function Added(base: seq<Value>, override: seq<Value>, field: string): seq<Value>
    requires Keyed(override, field)
  {
    if override == [] then []
    else
      var last := override[|override| - 1];
      Added(base, override[..|override| - 1], field)
      + if HasKey(base, field, ItemKey(last, field)) then [] else [last]
  }

  lemma {:induction false} AddedKeys(base: seq<Value>, override: seq<Value>, field: string)
    requires Keyed(override, field)
    ensures Keyed(Added(base, override, field), field)
    ensures forall x | x in Added(base, override, field) :: x in override && !HasKey(base, field, ItemKey(x, field))
  {
    if override != [] {
      assert override == override[..|override| - 1] + [override[|override| - 1]];
      AddedKeys(base, override[..|override| - 1], field);
    }
  }

  /** On unique keys the merge is the ordered override: base order first, then new keys, and the override wins. */
  lemma {:induction false} UniqueKeysOverride(base: seq<Value>, override: seq<Value>, field: string)
    requires UniqueIn(base, field) && UniqueIn(override, field)
    ensures PutAll(base, override, field) == Overridden(base, override, field) + Added(base, override, field)
  {
    if override == [] {
      assert Overridden(base, override, field) == base;
    } else {
      var init, x := override[..|override| - 1], override[|override| - 1];
      assert override == init + [x];
      UniqueInit(init, x, field);
      UniqueKeysOverride(base, init, field);
      MergeOneMore(base, init, x, field);
    }
  }

  lemma MergeOneMore(base: seq<Value>, init: seq<Value>, x: Value, field: string)
    requires UniqueIn(base, field) && Keyed(init + [x], field) && Keyed(init, field) && HasField(x, field)
    requires forall y | y in init :: !Matches(y, field, ItemKey(x, field))
    requires PutAll(base, init, field) == Overridden(base, init, field) + Added(base, init, field)
    ensures PutAll(base, init + [x], field) == Overridden(base, init + [x], field) + Added(base, init + [x], field)
  {
    var kept, more, p := Overridden(base, init, field), Added(base, init, field),
        LastIndex(base, field, ItemKey(x, field));
    MergedIndex(base, init, x, field);
    OverrideOneMore(base, init, x, field);
    AddedOneMore(base, init, x, field);
    PutAllOneMore(base, init, x, field);
    PutIntoParts(kept, more, x, field, p);
  }

  lemma MergedIndex(base: seq<Value>, init: seq<Value>, x: Value, field: string)
    requires UniqueIn(base, field) && Keyed(init, field) && HasField(x, field)
    requires forall y | y in init :: !Matches(y, field, ItemKey(x, field))
    ensures LastIndex(Overridden(base, init, field) + Added(base, init, field), field, ItemKey(x, field))
         == LastIndex(base, field, ItemKey(x, field))
  {
    AddedKeys(base, init, field);
    OverriddenKeys(base, init, field);
    LastIndexInMerge(base, Overridden(base, init, field), Added(base, init, field), field, ItemKey(x, field));
  }

  lemma PutIntoParts(kept: seq<Value>, more: seq<Value>, x: Value, field: string, p: int)
    requires HasField(x, field) && p == LastIndex(kept + more, field, ItemKey(x, field)) < |kept|
    ensures PutItem(kept + more, x, field)
         == (if p >= 0 then kept[p := x] else kept) + (more + if p >= 0 then [] else [x])
  {
  }

  lemma PutAllOneMore(items: seq<Value>, init: seq<Value>, x: Value, field: string)
    ensures PutAll(items, init + [x], field) == PutItem(PutAll(items, init, field), x, field)
  {
    assert (init + [x])[..|init|] == init;
  }

  lemma AddedOneMore(base: seq<Value>, init: seq<Value>, x: Value, field: string)
    requires Keyed(init + [x], field)
    ensures Keyed(init, field) && HasField(x, field)
    ensures Added(base, init + [x], field)
         == Added(base, init, field) + if HasKey(base, field, ItemKey(x, field)) then [] else [x]
  {
    var items := init + [x];
    assert items[|init|] == x && items[..|init|] == init;
    assert forall y | y in init :: y in items;
  }

  lemma WinnerAppend(item: Value, init: seq<Value>, x: Value, field: string)
    requires HasField(item, field) && HasField(x, field)
    ensures Winner(item, init + [x], field)
         == if ItemKey(item, field) == ItemKey(x, field) then x else Winner(item, init, field)
  {
    LastIndexAppend(init, x, field, ItemKey(item, field));
  }

  lemma OverrideOneMore(base: seq<Value>, init: seq<Value>, x: Value, field: string)
    requires UniqueIn(base, field) && HasField(x, field)
    ensures var p := LastIndex(base, field, ItemKey(x, field));
            var kept := Overridden(base, init, field);
            Overridden(base, init + [x], field) == if p >= 0 then kept[p := x] else kept
  {
    var p, kept, more := LastIndex(base, field, ItemKey(x, field)), Overridden(base, init, field),
        Overridden(base, init + [x], field);
    forall i | 0 <= i < |base| ensures more[i] == if i == p then x else kept[i] {
      OnlyPlace(base, field, ItemKey(x, field), i);
      WinnerAppend(base[i], init, x, field);
    }
  }

  lemma UniqueInit(init: seq<Value>, last: Value, field: string)
    requires UniqueIn(init + [last], field)
    ensures UniqueIn(init, field) && HasField(last, field)
    ensures forall y | y in init :: !Matches(y, field, ItemKey(last, field))
  {
    var items := init + [last];
    assert items[|init|] == last && last in items;
    forall i | 0 <= i < |init| ensures HasField(init[i], field) && !Matches(init[i], field, ItemKey(last, field)) {
      assert items[i] == init[i] && items[i] in items;
      assert !Matches(items[|init|], field, ItemKey(items[i], field));
    }
    forall i, j | 0 <= i < j < |init| ensures !Matches(init[j], field, ItemKey(init[i], field)) {
      assert items[i] == init[i] && items[j] == init[j];
      assert !Matches(items[j], field, ItemKey(items[i], field));
    }
  }

  lemma OverriddenKeys(base: seq<Value>, override: seq<Value>, field: string)
    requires Keyed(base, field)
    ensures forall i, key | 0 <= i < |base| ::
      Matches(Overridden(base, override, field)[i], field, key) <==> Matches(base[i], field, key)
  {
    forall i | 0 <= i < |base| ensures HasField(base[i], field) { assert base[i] in base; }
  }

  lemma LastIndexInMerge(base: seq<Value>, kept: seq<Value>, more: seq<Value>, field: string, key: Key)
    requires |kept| == |base|
    requires forall i | 0 <= i < |base| :: Matches(kept[i], field, key) <==> Matches(base[i], field, key)
    requires forall y | y in more :: !Matches(y, field, key)
    ensures LastIndex(kept + more, field, key) == LastIndex(base, field, key)
  {
    var p := LastIndex(base, field, key);
    forall j | p < j < |kept + more| ensures !Matches((kept + more)[j], field, key) {
      if j >= |kept| { assert (kept + more)[j] == more[j - |kept|]; }
    }
    LastIndexIs(kept + more, field, key, p);
  }

  lemma OnlyPlace(base: seq<Value>, field: string, key: Key, i: nat)
    requires UniqueIn(base, field) && i < |base|
    ensures base[i] in base && (Matches(base[i], field, key) <==> i == LastIndex(base, field, key))
  {
    var p := LastIndex(base, field, key);
    assert base[i] in base;
  }
}
