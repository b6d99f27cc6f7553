/** Deep merge of configuration layers, dotted-key extraction, and how the two interact. */
module LayeredConfig {
  import opened Common
  import opened KeyedMerge
  import opened KeyedLaws

  // ---- The merge ----

  /** `code` or `id` when every item is a table with that field, in this order of preference. */
  function DetectKeyedField(items: seq<Value>): (r: Option<string>)
    ensures r.Some? ==> items != [] && Keyed(items, r.value)
  {
    if items == [] then None
    else if Keyed(items, "code") then Some("code")
    else if Keyed(items, "id") then Some("id")
    else None
  }

  /** Whether the items are all tables with both fields, with one of them, or with neither decides how they merge. */
  lemma KeyedFieldIs(items: seq<Value>)
    ensures DetectKeyedField(items) == Some("code")
       <==> items != [] && forall i | 0 <= i < |items| :: items[i].Table? && "code" in items[i].fields
    ensures DetectKeyedField(items) == Some("id")
       <==> items != [] && (forall i | 0 <= i < |items| :: items[i].Table? && "id" in items[i].fields)
            && exists i :: 0 <= i < |items| && "code" !in items[i].fields
    ensures DetectKeyedField(items) in {None, Some("code"), Some("id")}
  {
    forall field
      ensures Keyed(items, field) <==> forall i | 0 <= i < |items| :: items[i].Table? && field in items[i].fields
    {
      if Keyed(items, field) {
        forall i | 0 <= i < |items| ensures HasField(items[i], field) { assert items[i] in items; }
      }
    }
  }

  function MergeArrays(base: seq<Value>, override: seq<Value>): seq<Value> {
    var field := DetectKeyedField(base + override);
    if field.Some? then PutAll(base, override, field.value) else base + override
  }

  function DeepMerge(base: Value, override: Value): Value
    decreases override
  {
    if base.Table? && override.Table? then
      Table(map k | k in base.fields.Keys + override.fields.Keys ::
        if k in override.fields then
          if k in base.fields then DeepMerge(base.fields[k], override.fields[k]) else override.fields[k]
        else base.fields[k])
    else if base.Array? && override.Array? then Array(MergeArrays(base.items, override.items))
    else override
  }

  /** Arrays without a common identifier field are concatenated, base first; where the two layers do not hold values of
      one composite kind, the override stands. */
  lemma UnkeyedOrUnlike(base: Value, override: Value)
    ensures base.Array? && override.Array? && DetectKeyedField(base.items + override.items).None? ==>
      var r := DeepMerge(base, override);
      r.Array? && base.items <= r.items && r.items[|base.items|..] == override.items
    ensures !(base.Table? && override.Table?) && !(base.Array? && override.Array?) ==>
      DeepMerge(base, override) == override
  {
  }

  /** The run of the merge as it may end: an identifier that cannot be a dictionary key raises a TypeError. */
  function TryMerge(base: Value, override: Value): Result<Value, MergeError>
    decreases override
  {
    if base.Table? && override.Table? then
      if forall k | k in base.fields && k in override.fields ::
          TryMerge(base.fields[k], override.fields[k]).Success? then
        Success(Table(map k | k in base.fields.Keys + override.fields.Keys ::
          if k in override.fields then
            if k in base.fields then TryMerge(base.fields[k], override.fields[k]).value else override.fields[k]
          else base.fields[k]))
      else Failure(UnhashableKey)
    else if base.Array? && override.Array? then
      var field := DetectKeyedField(base.items + override.items);
      if field.Some? && !(NoUnhashable(base.items, field.value) && NoUnhashable(override.items, field.value)) then
        Failure(UnhashableKey)
      else Success(Array(MergeArrays(base.items, override.items)))
    else Success(override)
  }

  /** Somewhere both layers hold an array at the same place, and together they are keyed by an array or a table. */
  predicate Raises(base: Value, override: Value)
    decreases override
  {
    if base.Table? && override.Table? then
      exists k :: k in base.fields && k in override.fields && Raises(base.fields[k], override.fields[k])
    else if base.Array? && override.Array? then
      var field := DetectKeyedField(base.items + override.items);
      field.Some? && exists item :: item in base.items + override.items && Unhashable(item, field.value)
    else false
  }

  /** The merge ends normally, with the value of `DeepMerge`, exactly when no such array is met. */
  lemma {:induction false} MergeFailsIffUnhashable(base: Value, override: Value)
    ensures TryMerge(base, override) == if Raises(base, override) then Failure(UnhashableKey)
        else Success(DeepMerge(base, override))
    decreases override
  {
    if base.Table? && override.Table? {
      forall k | k in base.fields && k in override.fields
        ensures TryMerge(base.fields[k], override.fields[k])
             == if Raises(base.fields[k], override.fields[k]) then Failure(UnhashableKey)
                else Success(DeepMerge(base.fields[k], override.fields[k]))
      {
        MergeFailsIffUnhashable(base.fields[k], override.fields[k]);
      }
      if !Raises(base, override) {
        var t, d := TryMerge(base, override).value.fields, DeepMerge(base, override).fields;
        assert t.Keys == d.Keys;
        assert forall k | k in t :: t[k] == d[k];
        assert t == d;
      }
    } else if base.Array? && override.Array? {
      var field := DetectKeyedField(base.items + override.items);
      if field.Some? {
        var all := base.items + override.items;
        assert forall item :: item in all <==> item in base.items || item in override.items;
      }
    }
  }

  // ---- Dotted keys ----

  function Extract(data: Value, path: seq<string>): Option<Value> {
    if path == [] then Some(data)
    else if data.Table? && path[0] in data.fields then Extract(data.fields[path[0]], path[1..])
    else None
  }

  /** The walk of `extract_key`, part by part. */
  method ExtractKey(data: Value, parts: seq<string>) returns (r: Option<Value>)
    ensures r == Extract(data, parts)
  {
    var current := data;
    for i := 0 to |parts|
      invariant Extract(data, parts) == Extract(current, parts[i..])
    {
      if current.Table? && parts[i] in current.fields {
        current := current.fields[parts[i]];
        assert parts[i..][1..] == parts[i + 1..];
      } else {
        return None;
      }
    }
    return Some(current);
  }

  /** The walk meets something that is no table before the path ends. */
  predicate Blocked(data: Value, path: seq<string>) {
    path != [] && (!data.Table? || (path[0] in data.fields && Blocked(data.fields[path[0]], path[1..])))
  }

  /** What one more layer makes of a path: found in both merges, found above wins, a non-table above hides, silence
      shows. */
  function Overlay(below: Option<Value>, layer: Value, path: seq<string>): Option<Value> {
    match Extract(layer, path)
    case Some(v) => if below.Some? then Some(DeepMerge(below.value, v)) else Some(v)
    case None => if Blocked(layer, path) then None else below
  }

  /** Extracting from a merge is overlaying the extractions, for every path and whatever the layers hold. */
  lemma {:induction false} ExtractCommutesWithMerge(base: Value, override: Value, path: seq<string>)
    ensures Extract(DeepMerge(base, override), path) == Overlay(Extract(base, path), override, path)
    decreases |path|
  {
    if path != [] && base.Table? && override.Table? && path[0] in base.fields && path[0] in override.fields {
      ExtractCommutesWithMerge(base.fields[path[0]], override.fields[path[0]], path[1..]);
    }
  }

  // ---- Any number of layers ----

  /** The fold of `main`: the first layer is the base, each later one overrides what has been merged so far. */
  function Resolve(layers: seq<Value>): Value
    requires layers != []
  {
    if |layers| == 1 then layers[0] else DeepMerge(Resolve(layers[..|layers| - 1]), layers[|layers| - 1])
  }

  function OverlayAll(layers: seq<Value>, path: seq<string>): Option<Value>
    requires layers != []
  {
    if |layers| == 1 then Extract(layers[0], path)
    else Overlay(OverlayAll(layers[..|layers| - 1], path), layers[|layers| - 1], path)
  }

  lemma {:induction false} ExtractFromLayers(layers: seq<Value>, path: seq<string>)
    requires layers != []
    ensures Extract(Resolve(layers), path) == OverlayAll(layers, path)
  {
    if |layers| > 1 {
      ExtractFromLayers(layers[..|layers| - 1], path);
      ExtractCommutesWithMerge(Resolve(layers[..|layers| - 1]), layers[|layers| - 1], path);
    }
  }

  /** A layer that neither holds nor hides the path. */
  predicate Silent(layer: Value, path: seq<string>) {
    Extract(layer, path).None? && !Blocked(layer, path)
  }

  predicate Scalar(v: Value) { !v.Table? && !v.Array? }

  /** The highest layer that says anything about a path decides it: a scalar there is the answer, a non-table on the way
      hides everything below. */
  lemma {:induction false} HighestLayerDecides(layers: seq<Value>, i: nat, path: seq<string>)
    requires i < |layers| && forall j | i < j < |layers| :: Silent(layers[j], path)
    ensures Blocked(layers[i], path) ==> Extract(Resolve(layers), path).None?
    ensures Extract(layers[i], path).Some? && Scalar(Extract(layers[i], path).value) ==>
      Extract(Resolve(layers), path) == Extract(layers[i], path)
  {
    ExtractFromLayers(layers, path);
    if Blocked(layers[i], path) { BlockedIsNone(layers[i], path); }
    if i < |layers| - 1 {
      HighestLayerDecides(layers[..|layers| - 1], i, path);
      ExtractFromLayers(layers[..|layers| - 1], path);
    }
  }

  lemma {:induction false} BlockedIsNone(data: Value, path: seq<string>)
    requires Blocked(data, path)
    ensures Extract(data, path).None?
  {
    if data.Table? { BlockedIsNone(data.fields[path[0]], path[1..]); }
  }

  /** A layer file that is absent loads as the empty table and changes nothing. */
  lemma EmptyLayerIsNeutral(v: Value)
    requires v.Table?
    ensures DeepMerge(v, Table(map[])) == v && DeepMerge(Table(map[]), v) == v
  {
    var r := DeepMerge(v, Table(map[]));
    assert r.fields.Keys == v.fields.Keys;
    assert r.fields == v.fields;
    var l := DeepMerge(Table(map[]), v);
    assert l.fields.Keys == v.fields.Keys;
    assert l.fields == v.fields;
  }

  // ---- Regrouping layers ----

  /** All items carry `code`; or all carry `id` and none carries `code`. */
  predicate Uniform(items: seq<Value>, field: string) {
    Keyed(items, field) &&
    (field == "code" || (field == "id" && forall item | item in items :: !HasField(item, "code")))
  }

  /** Arrays whose merge mode is the same in every grouping: uniformly keyed, or kept unkeyed by the middle one. */
  predicate ArraysRegroup(a: seq<Value>, b: seq<Value>, c: seq<Value>) {
    Uniform(a + b + c, "code") || Uniform(a + b + c, "id") || (b != [] && DetectKeyedField(b).None?)
  }

  /** Wherever the outer layers are both tables, or both arrays, the middle layer is of that shape too. */
  predicate Regroupable(a: Value, b: Value, c: Value)
    decreases c
  {
    if a.Table? && c.Table? then
      b.Table? && forall k | k in a.fields && k in b.fields && k in c.fields ::
        Regroupable(a.fields[k], b.fields[k], c.fields[k])
    else if a.Array? && c.Array? then b.Array? && ArraysRegroup(a.items, b.items, c.items)
    else true
  }

  lemma KeyedConcat(a: seq<Value>, b: seq<Value>, field: string)
    ensures Keyed(a + b, field) <==> Keyed(a, field) && Keyed(b, field)
  {
    assert forall x | x in a :: x in a + b;
    assert forall x | x in b :: x in a + b;
  }

  lemma UniformMerge(a: seq<Value>, b: seq<Value>, field: string)
    requires Uniform(a, field) && Uniform(b, field)
    ensures MergeArrays(a, b) == PutAll(a, b, field)
    ensures Uniform(MergeArrays(a, b), field)
  {
    KeyedConcat(a, b, field);
    PutAllKeyed(a, b, field);
    if a + b == [] {
      assert a == [] && b == [];
    } else if field == "id" {
      KeyedConcat(a, b, "code");
      if a != [] { assert a[0] in a; }
      if b != [] { assert b[0] in b; }
    }
  }

  lemma UniformParts(a: seq<Value>, b: seq<Value>, field: string)
    requires Uniform(a + b, field)
    ensures Uniform(a, field) && Uniform(b, field)
  {
    KeyedConcat(a, b, field);
    assert forall x | x in a :: x in a + b;
    assert forall x | x in b :: x in a + b;
  }

  lemma UnkeyedStays(a: seq<Value>, b: seq<Value>, c: seq<Value>)
    requires b != [] && DetectKeyedField(b).None?
    ensures DetectKeyedField(a + b + c).None?
  {
    forall field | field == "code" || field == "id" ensures !Keyed(a + b + c, field) {
      KeyedConcat(a + b, c, field);
      KeyedConcat(a, b, field);
    }
  }

  lemma ArraysAssociate(a: seq<Value>, b: seq<Value>, c: seq<Value>)
    requires ArraysRegroup(a, b, c)
    ensures MergeArrays(MergeArrays(a, b), c) == MergeArrays(a, MergeArrays(b, c))
  {
    if b != [] && DetectKeyedField(b).None? {
      UnkeyedStays(a, b, []);
      UnkeyedStays([], b, c);
      UnkeyedStays(a, b, c);
      assert a + b + [] == a + b && [] + b + c == b + c && a + (b + c) == a + b + c;
    } else {
      var field := if Uniform(a + b + c, "code") then "code" else "id";
      UniformParts(a + b, c, field);
      UniformParts(a, b, field);
      UniformMerge(a, b, field);
      UniformMerge(b, c, field);
      UniformMerge(MergeArrays(a, b), c, field);
      UniformMerge(a, MergeArrays(b, c), field);
      KeyedMergeAssociative(a, b, c, field);
    }
  }

  /** Layers of compatible shape may be merged in either grouping. */
  lemma {:induction false} LayersRegroup(a: Value, b: Value, c: Value)
    requires Regroupable(a, b, c)
    ensures DeepMerge(DeepMerge(a, b), c) == DeepMerge(a, DeepMerge(b, c))
    decreases c
  {
    if a.Table? && b.Table? && c.Table? {
      var left, right := DeepMerge(DeepMerge(a, b), c), DeepMerge(a, DeepMerge(b, c));
      assert left.fields.Keys == right.fields.Keys;
      forall k | k in left.fields ensures left.fields[k] == right.fields[k] {
        if k in a.fields && k in b.fields && k in c.fields {
          LayersRegroup(a.fields[k], b.fields[k], c.fields[k]);
        }
      }
      assert left.fields == right.fields;
    } else if a.Array? && b.Array? && c.Array? {
      ArraysAssociate(a.items, b.items, c.items);
    }
  }

  /** A scalar between two tables makes the groupings differ: the left one forgets the first layer, the right one
      keeps it. */
  lemma ScalarBetweenTables(k: string, l: string, v: Value)
    requires k != l
    ensures var a, b, c := Table(map[k := v]), Text(""), Table(map[l := v]);
            DeepMerge(DeepMerge(a, b), c) == c && k in DeepMerge(a, DeepMerge(b, c)).fields
  {
  }

  /** Merging the override over the base leaves no trace of the base: each key of a base table comes back in the
      override and is absorbed there, an unkeyed base array is empty, and a keyed one is replaced item by item. */
  predicate Absorbed(base: Value, override: Value)
    decreases override
  {
    if base.Table? && override.Table? then
      forall k | k in base.fields :: k in override.fields && Absorbed(base.fields[k], override.fields[k])
    else if base.Array? && override.Array? then
      var field := DetectKeyedField(base.items + override.items);
      if field.None? then base.items == [] else PutAll(base.items, override.items, field.value) == override.items
    else true
  }

  lemma {:induction false} AbsorbedIff(base: Value, override: Value)
    ensures DeepMerge(base, override) == override <==> Absorbed(base, override)
    decreases override
  {
    if base.Table? && override.Table? {
      var r := DeepMerge(base, override);
      forall k | k in base.fields && k in override.fields
        ensures r.fields[k] == override.fields[k] <==> Absorbed(base.fields[k], override.fields[k])
      {
        AbsorbedIff(base.fields[k], override.fields[k]);
      }
      if r == override {
        forall k | k in base.fields ensures k in override.fields && Absorbed(base.fields[k], override.fields[k]) {
          assert k in r.fields;
        }
      }
      if Absorbed(base, override) {
        assert r.fields.Keys == override.fields.Keys;
        forall k | k in override.fields ensures r.fields[k] == override.fields[k] {}
        assert r.fields == override.fields;
      }
    } else if base.Array? && override.Array? {
      var joined := base.items + override.items;
      if DetectKeyedField(joined).None? { assert joined == override.items <==> |base.items| == 0; }
    }
  }

  /** Around a middle layer that is no table, two tables regroup exactly when the last one absorbs the first: the left
      grouping forgets the first layer, the right one keeps it. */
  lemma TablesRegroupIff(a: Value, b: Value, c: Value)
    requires a.Table? && !b.Table? && c.Table?
    ensures DeepMerge(DeepMerge(a, b), c) == DeepMerge(a, DeepMerge(b, c)) <==> Absorbed(a, c)
  {
    AbsorbedIff(a, c);
  }
}
