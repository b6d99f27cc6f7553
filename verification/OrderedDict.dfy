/** A dictionary that keeps the order in which its keys were first inserted. */
module OrderedDict {
  import opened Common

  datatype Field<K, V> = Field(key: K, value: V)

  function IndexOf<K(==), V>(d: seq<Field<K, V>>, key: K): (i: int)
    ensures -1 <= i < |d| && (i >= 0 ==> d[i].key == key)
    ensures forall j | 0 <= j < (if i >= 0 then i else |d|) :: d[j].key != key
  {
    if d == [] then -1
    else if d[0].key == key then 0
    else
      var rest := IndexOf(d[1..], key);
      if rest >= 0 then rest + 1 else -1
  }

  /** Assignment: an existing key keeps its place, a new one goes to the end. */
  function PutField<K(==), V>(d: seq<Field<K, V>>, key: K, value: V): seq<Field<K, V>> {
    var i := IndexOf(d, key);
    if i >= 0 then d[i := Field(key, value)] else d + [Field(key, value)]
  }

  function Remove<K(==), V>(d: seq<Field<K, V>>, key: K): seq<Field<K, V>> {
    var i := IndexOf(d, key);
    if i >= 0 then d[..i] + d[i + 1..] else d
  }

  function Lookup<K(==), V>(d: seq<Field<K, V>>, key: K): Option<V> {
    var i := IndexOf(d, key);
    if i >= 0 then Some(d[i].value) else None
  }

  ghost predicate DistinctKeys<K, V>(d: seq<Field<K, V>>) {
    forall i, j | 0 <= i < j < |d| :: d[i].key != d[j].key
  }

  ghost predicate Absent<K, V>(d: seq<Field<K, V>>, key: K) {
    forall i | 0 <= i < |d| :: d[i].key != key
  }

  lemma IndexIs<K, V>(d: seq<Field<K, V>>, key: K, i: int)
    requires -1 <= i < |d| && (i >= 0 ==> d[i].key == key)
    requires forall j | 0 <= j < (if i >= 0 then i else |d|) :: d[j].key != key
    ensures IndexOf(d, key) == i
  {
  }

  lemma PutDistinct<K, V>(d: seq<Field<K, V>>, key: K, value: V)
    requires DistinctKeys(d)
    ensures DistinctKeys(PutField(d, key, value))
  {
  }

  lemma PutAbsent<K, V>(d: seq<Field<K, V>>, key: K, value: V)
    requires Absent(d, key)
    ensures PutField(d, key, value) == d + [Field(key, value)]
  {
    IndexIs(d, key, -1);
  }

  lemma PutTwice<K, V>(d: seq<Field<K, V>>, key: K, v: V, w: V)
    requires Absent(d, key)
    ensures PutField(PutField(d, key, v), key, w) == d + [Field(key, w)]
  {
    PutAbsent(d, key, v);
    IndexIs(d + [Field(key, v)], key, |d|);
  }

  lemma PutKeepsAbsent<K, V>(d: seq<Field<K, V>>, key: K, value: V, other: K)
    requires key != other && Absent(d, other)
    ensures Absent(PutField(d, key, value), other)
  {
  }

  /** Removal takes the key's entry out and moves later ones up. */
  lemma RemoveParts<K, V>(d: seq<Field<K, V>>, key: K)
    requires DistinctKeys(d)
    ensures DistinctKeys(Remove(d, key)) && Absent(Remove(d, key), key)
    ensures forall f :: f in Remove(d, key) ==> f in d
  {
    var i, r := IndexOf(d, key), Remove(d, key);
    if i >= 0 {
      forall j | 0 <= j < |r| ensures r[j].key != key {
        assert j >= i ==> d[i].key != d[j + 1].key;
      }
    }
  }

  /** Assigning one key and removing another commute. */
  lemma PutRemoveCommute<K, V>(d: seq<Field<K, V>>, key: K, value: V, gone: K)
    requires DistinctKeys(d) && key != gone
    ensures Remove(PutField(d, key, value), gone) == PutField(Remove(d, gone), key, value)
  {
    var i, g := IndexOf(d, key), IndexOf(d, gone);
    PutIndex(d, key, value, gone);
    if g >= 0 {
      RemovedIndex(d, gone, key);
      UpdateThenCut(d, i, g, Field(key, value));
    }
  }

  lemma PutIndex<K, V>(d: seq<Field<K, V>>, key: K, value: V, other: K)
    requires key != other
    ensures IndexOf(PutField(d, key, value), other) == IndexOf(d, other)
  {
    IndexIs(PutField(d, key, value), other, IndexOf(d, other));
  }

  lemma UpdateThenCut<T>(d: seq<T>, i: int, g: nat, x: T)
    requires -1 <= i < |d| && g < |d| && i != g
    ensures i < 0 ==> (d + [x])[..g] + (d + [x])[g + 1..] == d[..g] + d[g + 1..] + [x]
    ensures 0 <= i < g ==> d[i := x][..g] + d[i := x][g + 1..] == (d[..g] + d[g + 1..])[i := x]
    ensures i > g ==> d[i := x][..g] + d[i := x][g + 1..] == (d[..g] + d[g + 1..])[i - 1 := x]
  {
  }

  lemma RemovedIndex<K, V>(d: seq<Field<K, V>>, gone: K, key: K)
    requires DistinctKeys(d) && key != gone
    ensures IndexOf(Remove(d, gone), key)
         == if 0 <= IndexOf(d, gone) < IndexOf(d, key) then IndexOf(d, key) - 1 else IndexOf(d, key)
  {
    var i, g := IndexOf(d, key), IndexOf(d, gone);
    if g >= 0 { CutIndex(d, g, key, i); }
  }

  /** Where a key stands after position `g`, which holds another key, is cut out. */
  lemma CutIndex<K, V>(d: seq<Field<K, V>>, g: nat, key: K, i: int)
    requires g < |d| && -1 <= i < |d| && i != g && (i >= 0 ==> d[i].key == key)
    requires forall j | 0 <= j < (if i >= 0 then i else |d|) :: d[j].key != key
    ensures IndexOf(d[..g] + d[g + 1..], key) == if g < i then i - 1 else i
  {
    var r := d[..g] + d[g + 1..];
    CutElements(d, g);
    IndexIs(r, key, if g < i then i - 1 else i);
  }

  lemma CutElements<T>(d: seq<T>, g: nat)
    requires g < |d|
    ensures var r := d[..g] + d[g + 1..];
      && |r| == |d| - 1
      && (forall j | 0 <= j < g :: r[j] == d[j])
      && (forall j | g <= j < |r| :: r[j] == d[j + 1])
  {
  }

  lemma CutElement<T>(d: seq<T>, g: nat, i: nat)
    requires g < |d| && i < |d| && i != g
    ensures (d[..g] + d[g + 1..])[if g < i then i - 1 else i] == d[i]
  {
  }

  lemma LookupPut<K, V>(d: seq<Field<K, V>>, key: K, value: V, other: K)
    ensures Lookup(PutField(d, key, value), other) == if other == key then Some(value) else Lookup(d, other)
  {
    var put, i := PutField(d, key, value), IndexOf(d, key);
    IndexIs(put, other, if other == key then (if i >= 0 then i else |d|) else IndexOf(d, other));
  }

  lemma LookupAppended<K, V>(d: seq<Field<K, V>>, f: Field<K, V>, key: K)
    requires Absent(d, f.key)
    ensures Lookup(d + [f], key) == if key == f.key then Some(f.value) else Lookup(d, key)
  {
    IndexIs(d + [f], key, if key == f.key then |d| else IndexOf(d, key));
  }

  lemma LookupRemoved<K, V>(d: seq<Field<K, V>>, gone: K, key: K)
    requires DistinctKeys(d) && key != gone
    ensures Lookup(Remove(d, gone), key) == Lookup(d, key)
  {
    var i, g := IndexOf(d, key), IndexOf(d, gone);
    RemovedIndex(d, gone, key);
    hide IndexOf;
    if i >= 0 && g >= 0 { CutElement(d, g, i); }
  }

  /** Moving a key to the end with a new value: every other key keeps its value. */
  lemma LookupMoved<K, V>(d: seq<Field<K, V>>, moved: K, value: V, key: K)
    requires DistinctKeys(d)
    ensures Lookup(Remove(d, moved) + [Field(moved, value)], key) == if key == moved then Some(value)
        else Lookup(d, key)
  {
    hide Remove, IndexOf, Lookup;
    RemoveParts(d, moved);
    LookupAppended(Remove(d, moved), Field(moved, value), key);
    if key != moved { LookupRemoved(d, moved, key); }
  }

  lemma MovedAbsorbsPut<K, V>(d: seq<Field<K, V>>, key: K, value: V)
    requires DistinctKeys(d)
    ensures Remove(PutField(d, key, value), key) == Remove(d, key)
  {
    var i, put := IndexOf(d, key), PutField(d, key, value);
    IndexIs(put, key, if i >= 0 then i else |d|);
    if i < 0 { assert put[..|d|] + put[|d| + 1..] == d; }
  }

  // ---- Rebuilding a dictionary through a normalisation of keys and values ----

  /** Inserts the normalised fields one by one; keys that become equal share the earlier place and the later value. */
  function Normalise<K(==), V>(d: seq<Field<K, V>>, nk: K -> K, nv: V -> V): seq<Field<K, V>> {
    if d == [] then []
    else
      var last := d[|d| - 1];
      PutField(Normalise(d[..|d| - 1], nk, nv), nk(last.key), nv(last.value))
  }

  /** Distinct keys, and every field already normal. */
  ghost predicate Normal<K, V>(d: seq<Field<K, V>>, nk: K -> K, nv: V -> V) {
    DistinctKeys(d) && forall i | 0 <= i < |d| :: nk(d[i].key) == d[i].key && nv(d[i].value) == d[i].value
  }

  lemma NormaliseAppend<K, V>(d: seq<Field<K, V>>, f: Field<K, V>, nk: K -> K, nv: V -> V)
    ensures Normalise(d + [f], nk, nv) == PutField(Normalise(d, nk, nv), nk(f.key), nv(f.value))
  {
    assert (d + [f])[..|d|] == d;
  }

  lemma NormalParts<K, V>(d: seq<Field<K, V>>, f: Field<K, V>, nk: K -> K, nv: V -> V)
    requires Normal(d + [f], nk, nv)
    ensures Normal(d, nk, nv) && Absent(d, f.key) && nk(f.key) == f.key && nv(f.value) == f.value
  {
    var all := d + [f];
    assert all[|d|] == f;
    assert forall i | 0 <= i < |d| :: all[i] == d[i];
  }

  lemma {:induction false} NormalConcat<K, V>(front: seq<Field<K, V>>, back: seq<Field<K, V>>, nk: K -> K, nv: V -> V)
    requires Normal(back, nk, nv) && forall i | 0 <= i < |back| :: Absent(Normalise(front, nk, nv), back[i].key)
    ensures Normalise(front + back, nk, nv) == Normalise(front, nk, nv) + back
  {
    if back == [] {
      assert front + back == front;
    } else {
      var init, last := back[..|back| - 1], back[|back| - 1];
      assert back == init + [last] && front + back == (front + init) + [last];
      NormalParts(init, last, nk, nv);
      NormalConcat(front, init, nk, nv);
      NormaliseAppend(front + init, last, nk, nv);
      assert Absent(Normalise(front, nk, nv), back[|back| - 1].key);
      PutAbsent(Normalise(front, nk, nv) + init, last.key, last.value);
    }
  }

  lemma NormalIsFixed<K, V>(d: seq<Field<K, V>>, nk: K -> K, nv: V -> V)
    requires Normal(d, nk, nv)
    ensures Normalise(d, nk, nv) == d
  {
    var none: seq<Field<K, V>> := [];
    NormalConcat(none, d, nk, nv);
    assert none + d == d;
  }

  lemma NormalSlices<K, V>(front: seq<Field<K, V>>, f: Field<K, V>, back: seq<Field<K, V>>, nk: K -> K, nv: V -> V)
    requires Normal(front + [f] + back, nk, nv)
    ensures Normal(front, nk, nv) && Normal(back, nk, nv) && Absent(front, f.key) && nk(f.key) == f.key
    ensures forall i | 0 <= i < |back| :: Absent(front, back[i].key) && back[i].key != f.key
  {
    var all := front + [f] + back;
    assert forall i | 0 <= i < |front| :: all[i] == front[i];
    assert all[|front|] == f;
    assert forall i | 0 <= i < |back| :: all[|front| + 1 + i] == back[i];
  }

  /** Assigning a raw value to a normal key of a normal dictionary, then normalising. */
  lemma NormaliseReplace<K, V>(front: seq<Field<K, V>>, f: Field<K, V>, back: seq<Field<K, V>>, v: V, nk: K -> K,
                               nv: V -> V)
    requires Normal(front + [f] + back, nk, nv)
    ensures Normalise(front + [Field(f.key, v)] + back, nk, nv) == front + [Field(f.key, nv(v))] + back
  {
    NormalSlices(front, f, back, nk, nv);
    NormalIsFixed(front, nk, nv);
    NormaliseAppend(front, Field(f.key, v), nk, nv);
    PutAbsent(front, f.key, nv(v));
    NormalConcat(front + [Field(f.key, v)], back, nk, nv);
  }

  lemma NormaliseOfPut<K, V>(d: seq<Field<K, V>>, key: K, value: V, nk: K -> K, nv: V -> V)
    requires Normal(d, nk, nv) && nk(key) == key
    ensures Normalise(PutField(d, key, value), nk, nv) == PutField(d, key, nv(value))
  {
    var i := IndexOf(d, key);
    if i < 0 {
      NormaliseAppend(d, Field(key, value), nk, nv);
      NormalIsFixed(d, nk, nv);
    } else {
      var front, back := d[..i], d[i + 1..];
      assert d == front + [d[i]] + back;
      assert d[i := Field(key, value)] == front + [Field(key, value)] + back;
      assert d[i := Field(key, nv(value))] == front + [Field(key, nv(value))] + back;
      NormaliseReplace(front, d[i], back, value, nk, nv);
    }
  }

  lemma PutKeepsNormal<K, V>(d: seq<Field<K, V>>, key: K, value: V, nk: K -> K, nv: V -> V)
    requires Normal(d, nk, nv) && nk(key) == key && nv(value) == value
    ensures Normal(PutField(d, key, value), nk, nv)
  {
  }

  lemma RemoveKeepsNormal<K, V>(d: seq<Field<K, V>>, key: K, nk: K -> K, nv: V -> V)
    requires Normal(d, nk, nv)
    ensures Normal(Remove(d, key), nk, nv) && Absent(Remove(d, key), key)
  {
    RemoveParts(d, key);
    var r := Remove(d, key);
    forall i | 0 <= i < |r| ensures nk(r[i].key) == r[i].key && nv(r[i].value) == r[i].value {
      assert r[i] in d;
    }
  }

  lemma {:induction false} NormaliseIsNormal<K, V>(d: seq<Field<K, V>>, nk: K -> K, nv: V -> V)
    requires forall i | 0 <= i < |d| :: nk(nk(d[i].key)) == nk(d[i].key) && nv(nv(d[i].value)) == nv(d[i].value)
    ensures Normal(Normalise(d, nk, nv), nk, nv)
  {
    if d != [] {
      var last := d[|d| - 1];
      NormaliseIsNormal(d[..|d| - 1], nk, nv);
      PutKeepsNormal(Normalise(d[..|d| - 1], nk, nv), nk(last.key), nv(last.value), nk, nv);
    }
  }

  ghost predicate NormalKeys<K, V>(d: seq<Field<K, V>>, nk: K -> K) {
    forall i | 0 <= i < |d| :: nk(d[i].key) == d[i].key
  }

  lemma PutKeepsNormalKeys<K, V>(d: seq<Field<K, V>>, key: K, value: V, nk: K -> K)
    requires nk(key) == key && NormalKeys(d, nk)
    ensures NormalKeys(PutField(d, key, value), nk)
  {
  }

  function MapValues<K, V>(d: seq<Field<K, V>>, f: V -> V): (r: seq<Field<K, V>>)
    ensures |r| == |d| && forall i | 0 <= i < |r| :: r[i] == Field(d[i].key, f(d[i].value))
  {
    if d == [] then [] else MapValues(d[..|d| - 1], f) + [Field(d[|d| - 1].key, f(d[|d| - 1].value))]
  }

  /** Mapping values first makes no difference when normalisation absorbs the mapping. */
  lemma {:induction false} NormaliseMapped<K, V>(d: seq<Field<K, V>>, f: V -> V, nk: K -> K, nv: V -> V)
    requires forall i | 0 <= i < |d| :: nv(f(d[i].value)) == nv(d[i].value)
    ensures Normalise(MapValues(d, f), nk, nv) == Normalise(d, nk, nv)
  {
    if d != [] {
      NormaliseMapped(d[..|d| - 1], f, nk, nv);
      NormaliseAppend(MapValues(d[..|d| - 1], f), Field(d[|d| - 1].key, f(d[|d| - 1].value)), nk, nv);
    }
  }

  lemma MappedIsNormal<K, V>(d: seq<Field<K, V>>, f: V -> V, nk: K -> K, nv: V -> V)
    requires DistinctKeys(d) && NormalKeys(d, nk) && forall i | 0 <= i < |d| :: nv(f(d[i].value)) == f(d[i].value)
    ensures Normal(MapValues(d, f), nk, nv)
  {
    var m := MapValues(d, f);
    forall i, j | 0 <= i < j < |m| ensures m[i].key != m[j].key {
      assert d[i].key != d[j].key;
    }
  }

  lemma SameKeys<K, V>(d: seq<Field<K, V>>, e: seq<Field<K, V>>, nk: K -> K, nv: V -> V)
    requires |d| == |e| && Normal(e, nk, nv) && forall i | 0 <= i < |d| :: d[i].key == e[i].key
    ensures DistinctKeys(d) && NormalKeys(d, nk)
  {
    forall i, j | 0 <= i < j < |d| ensures d[i].key != d[j].key {
      assert e[i].key != e[j].key;
    }
  }

  /** Normalising brings in no key that is not the normal form of some key. */
  lemma {:induction false} NormaliseAbsent<K, V>(d: seq<Field<K, V>>, key: K, nk: K -> K, nv: V -> V)
    requires forall i | 0 <= i < |d| :: nk(d[i].key) != key
    ensures Absent(Normalise(d, nk, nv), key)
  {
    if d != [] {
      var last := d[|d| - 1];
      NormaliseAbsent(d[..|d| - 1], key, nk, nv);
      PutKeepsAbsent(Normalise(d[..|d| - 1], nk, nv), nk(last.key), nv(last.value), key);
    }
  }

  /** Moving `moved` to the end after assigning `key`, normalised: the same as assigning the normalised pair first. */
  lemma NormaliseMoved<K, V>(d: seq<Field<K, V>>, key: K, value: V, moved: K, stamp: V, nk: K -> K, nv: V -> V)
    requires Normal(d, nk, nv) && nk(nk(key)) == nk(key) && nk(moved) == moved && nv(stamp) == stamp
    ensures Normalise(Remove(PutField(d, key, value), moved) + [Field(moved, stamp)], nk, nv)
         == Remove(PutField(d, nk(key), nv(value)), moved) + [Field(moved, stamp)]
  {
    var rest := Remove(d, moved);
    RemoveKeepsNormal(d, moved, nk, nv);
    NormaliseAppend(Remove(PutField(d, key, value), moved), Field(moved, stamp), nk, nv);
    if key == moved {
      MovedAbsorbsPut(d, key, value);
      MovedAbsorbsPut(d, key, nv(value));
      NormalIsFixed(rest, nk, nv);
      PutAbsent(rest, moved, stamp);
    } else {
      PutRemoveCommute(d, key, value, moved);
      NormaliseAssigned(rest, key, value, nk, nv);
      if nk(key) == moved {
        MovedAbsorbsPut(d, moved, nv(value));
        PutTwice(rest, moved, nv(value), stamp);
      } else {
        PutRemoveCommute(d, nk(key), nv(value), moved);
        PutKeepsAbsent(rest, nk(key), nv(value), moved);
        PutAbsent(PutField(rest, nk(key), nv(value)), moved, stamp);
      }
    }
  }

  lemma NormaliseAssigned<K, V>(d: seq<Field<K, V>>, key: K, value: V, nk: K -> K, nv: V -> V)
    requires Normal(d, nk, nv)
    ensures Normalise(PutField(d, key, value), nk, nv) == PutField(d, nk(key), nv(value))
  {
    if nk(key) == key {
      NormaliseOfPut(d, key, value, nk, nv);
    } else {
      PutAbsent(d, key, value);
      NormaliseAppend(d, Field(key, value), nk, nv);
      NormalIsFixed(d, nk, nv);
    }
  }
}
