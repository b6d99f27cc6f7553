/** The structural-analysis response cache: an ordered map from (job, endpoint, commit) to a response. */
module RecencyCache {
  import opened Common

  const STRUCTURAL_CACHE_MAX_ENTRIES := 64

  datatype Key = Key(job: string, endpoint: string, sha: string)
  datatype Entry<V> = Entry(key: Key, value: V)
  datatype Op<V> = Get(key: Key) | Put(key: Key, value: V)

  predicate Has<V>(s: seq<Entry<V>>, k: Key) {
    exists i :: 0 <= i < |s| && s[i].key == k
  }

  ghost predicate UniqueKeys<V>(s: seq<Entry<V>>) {
    forall i, j | 0 <= i < j < |s| :: s[i].key != s[j].key
  }

  function Without<V>(s: seq<Entry<V>>, k: Key): (r: seq<Entry<V>>)
    ensures !Has(r, k)
    ensures forall x: Key :: Has(r, x) <==> x != k && Has(s, x)
    ensures |r| <= |s|
    ensures !Has(s, k) ==> r == s
  {
    if s == [] then []
    else
      var rest, last := Without(s[..|s| - 1], k), s[|s| - 1];
      assert s == s[..|s| - 1] + [last];
      HasAppend(s[..|s| - 1], last);
      HasAppend(rest, last);
      if last.key == k then rest else rest + [last]
  }

  lemma HasAppend<V>(s: seq<Entry<V>>, e: Entry<V>)
    ensures forall x: Key :: Has(s + [e], x) <==> Has(s, x) || x == e.key
  {
    forall x: Key ensures Has(s + [e], x) <==> Has(s, x) || x == e.key {
      if Has(s, x) { var i :| 0 <= i < |s| && s[i].key == x; assert (s + [e])[i].key == x; }
      if x == e.key { assert (s + [e])[|s|].key == x; }
    }
  }

  function Lookup<V>(s: seq<Entry<V>>, k: Key): (r: Option<V>)
    ensures r.Some? <==> Has(s, k)
  {
    if s == [] then None
    else
      assert s == s[..|s| - 1] + [s[|s| - 1]];
      HasAppend(s[..|s| - 1], s[|s| - 1]);
      if s[|s| - 1].key == k then Some(s[|s| - 1].value) else Lookup(s[..|s| - 1], k)
  }

  /** Drops entries from the old end until at most `n` are left. */
  function Newest<T>(s: seq<T>, n: nat): seq<T> {
    if |s| > n then s[|s| - n..] else s
  }

  /** Makes `e` the newest entry, replacing an older entry of its key. */
  function Renew<V>(s: seq<Entry<V>>, e: Entry<V>): seq<Entry<V>> {
    Without(s, e.key) + [e]
  }

  // ---- Operations on the entries, oldest first ----

  function Apply<V>(s: seq<Entry<V>>, capacity: nat, op: Op<V>): seq<Entry<V>> {
    match op
    case Get(k) => if Has(s, k) then Renew(s, Entry(k, Lookup(s, k).value)) else s
    case Put(k, v) => Newest(Renew(s, Entry(k, v)), capacity)
  }

  /** The entries after a whole run on an empty cache. */
  function Run<V>(capacity: nat, ops: seq<Op<V>>): seq<Entry<V>> {
    if ops == [] then [] else Apply(Run(capacity, ops[..|ops| - 1]), capacity, ops[|ops| - 1])
  }

  lemma {:induction false} WithoutUnique<V>(s: seq<Entry<V>>, k: Key)
    requires UniqueKeys(s)
    ensures UniqueKeys(Without(s, k))
    ensures |Without(s, k)| == |s| - if Has(s, k) then 1 else 0
  {
    if s != [] {
      var init, last := s[..|s| - 1], s[|s| - 1];
      WithoutUnique(init, k);
      assert s == init + [last];
      HasAppend(init, last);
      NotAmong(init, last);
      UniqueAppend(Without(init, k), last);
    }
  }

  lemma NotAmong<V>(s: seq<Entry<V>>, e: Entry<V>)
    requires UniqueKeys(s + [e])
    ensures !Has(s, e.key)
  {
    forall i | 0 <= i < |s| ensures s[i].key != e.key {
      assert (s + [e])[i].key != (s + [e])[|s|].key;
    }
  }

  lemma UniqueAppend<V>(s: seq<Entry<V>>, e: Entry<V>)
    requires UniqueKeys(s)
    ensures !Has(s, e.key) ==> UniqueKeys(s + [e])
  {
  }

  lemma RenewUnique<V>(s: seq<Entry<V>>, e: Entry<V>)
    requires UniqueKeys(s)
    ensures UniqueKeys(Renew(s, e))
    ensures |Renew(s, e)| == |s| + if Has(s, e.key) then 0 else 1
  {
    WithoutUnique(s, e.key);
    UniqueAppend(Without(s, e.key), e);
  }

  // ---- The cache object ----

  class StructuralCache<V> {
    const capacity: nat
    var entries: seq<Entry<V>>  // in the order of the ordered dictionary, oldest first

    ghost predicate Valid()
      reads this
    {
      UniqueKeys(entries) && |entries| <= capacity
    }

    constructor (capacity: nat)
      ensures Valid() && this.capacity == capacity && entries == Run(capacity, [])
    {
      this.capacity := capacity;
      entries := [];
    }

    /** A missing commit is never looked up; a hit becomes the newest entry. */
    method Get(job: string, endpoint: string, sha: Option<string>) returns (r: Option<V>)
      requires Valid()
      modifies this`entries
      ensures Valid()
      ensures sha.None? ==> r.None? && entries == old(entries)
      ensures sha.Some? ==> r == Lookup(old(entries), Key(job, endpoint, sha.value))
      ensures sha.Some? ==> entries == Apply(old(entries), capacity, Op.Get(Key(job, endpoint, sha.value)))
    {
      if sha.None? { return None; }
      var key := Key(job, endpoint, sha.value);
      r := Lookup(entries, key);
      if r.Some? {
        RenewUnique(entries, Entry(key, r.value));
        entries := Renew(entries, Entry(key, r.value));
      }
    }

    /** A missing commit is never stored; entries beyond the capacity leave from the old end. */
    method Put(job: string, endpoint: string, sha: Option<string>, value: V)
      requires Valid()
      modifies this`entries
      ensures Valid()
      ensures sha.None? ==> entries == old(entries)
      ensures sha.Some? ==> entries == Apply(old(entries), capacity, Op.Put(Key(job, endpoint, sha.value), value))
    {
      if sha.None? { return; }
      var key := Key(job, endpoint, sha.value);
      RenewUnique(entries, Entry(key, value));
      entries := Renew(entries, Entry(key, value));
      ghost var renewed := entries;
      while |entries| > capacity
        invariant |entries| <= |renewed| && entries == renewed[|renewed| - |entries|..]
        invariant |entries| == |renewed| || |entries| >= capacity
      {
        entries := entries[1..];
      }
    }
  }

  // ---- Recency: the cache is the newest part of an unbounded list ----

  /** Each put, and each get that hits, is a touch; a get that misses leaves no trace. */
  function TouchLog<V>(capacity: nat, ops: seq<Op<V>>): seq<Entry<V>> {
    if ops == [] then []
    else
      var before, op := Run(capacity, ops[..|ops| - 1]), ops[|ops| - 1];
      TouchLog(capacity, ops[..|ops| - 1]) + (match op
        case Put(k, v) => [Entry(k, v)]
        case Get(k) => if Has(before, k) then [Entry(k, Lookup(before, k).value)] else [])
  }

  /** The latest touch of every key, in the order of those touches, never evicted. */
  function Recency<V>(log: seq<Entry<V>>): seq<Entry<V>> {
    if log == [] then [] else Renew(Recency(log[..|log| - 1]), log[|log| - 1])
  }

  lemma {:induction false} RecencyUnique<V>(log: seq<Entry<V>>)
    ensures UniqueKeys(Recency(log))
  {
    if log != [] {
      RecencyUnique(log[..|log| - 1]);
      RenewUnique(Recency(log[..|log| - 1]), log[|log| - 1]);
    }
  }

  lemma {:induction false} WithoutConcat<V>(a: seq<Entry<V>>, b: seq<Entry<V>>, k: Key)
    ensures Without(a + b, k) == Without(a, k) + Without(b, k)
  {
    if b == [] {
      assert a + b == a;
    } else {
      assert (a + b)[..|a + b| - 1] == a + b[..|b| - 1];
      WithoutConcat(a, b[..|b| - 1], k);
    }
  }

  /** Renewing an entry commutes with keeping the newest `n`, whether the key is among them or not. */
  lemma RenewNewest<V>(s: seq<Entry<V>>, n: nat, e: Entry<V>)
    requires UniqueKeys(s)
    ensures Has(Newest(s, n), e.key) ==> Renew(Newest(s, n), e) == Newest(Renew(s, e), n)
    ensures Newest(Renew(Newest(s, n), e), n) == Newest(Renew(s, e), n)
  {
    hide Without, Has;
    if |s| > n {
      var aged, fresher := s[..|s| - n], s[|s| - n..];
      assert s == aged + fresher && Newest(s, n) == fresher;
      WithoutConcat(aged, fresher, e.key);
      LaterUnique(s, |s| - n);
      WithoutUnique(fresher, e.key);
      RenewConcat(Without(aged, e.key), Without(fresher, e.key), n, e, Has(fresher, e.key));
    } else {
      WithoutUnique(s, e.key);
    }
  }

  lemma LaterUnique<V>(s: seq<Entry<V>>, k: nat)
    requires UniqueKeys(s) && k <= |s|
    ensures UniqueKeys(s[k..])
  {
  }

  lemma RenewConcat<V>(aged: seq<Entry<V>>, kept: seq<Entry<V>>, n: nat, e: Entry<V>, held: bool)
    requires |kept| == n - if held then 1 else 0
    ensures held ==> kept + [e] == Newest(aged + kept + [e], n)
    ensures Newest(kept + [e], n) == Newest(aged + kept + [e], n)
  {
  }

  /** After any run the cache is the newest part of the recency list of its touches. */
  lemma {:induction false} CacheIsNewestTouched<V>(capacity: nat, ops: seq<Op<V>>)
    ensures Run(capacity, ops) == Newest(Recency(TouchLog(capacity, ops)), capacity)
  {
    if ops != [] {
      var earlier, op := ops[..|ops| - 1], ops[|ops| - 1];
      CacheIsNewestTouched(capacity, earlier);
      var before, log := Run(capacity, earlier), TouchLog(capacity, earlier);
      RecencyUnique(log);
      if op.Put? {
        TouchOnce(log, Entry(op.key, op.value));
        RenewNewest(Recency(log), capacity, Entry(op.key, op.value));
      } else if Has(before, op.key) {
        var e := Entry(op.key, Lookup(before, op.key).value);
        TouchOnce(log, e);
        RenewNewest(Recency(log), capacity, e);
      } else {
        assert TouchLog(capacity, ops) == log;
      }
    }
  }

  lemma TouchOnce<V>(log: seq<Entry<V>>, e: Entry<V>)
    ensures Recency(log + [e]) == Renew(Recency(log), e)
  {
    assert (log + [e])[..|log|] == log;
  }

  lemma RunIsValid<V>(capacity: nat, ops: seq<Op<V>>)
    ensures UniqueKeys(Run(capacity, ops)) && |Run(capacity, ops)| <= capacity
  {
    CacheIsNewestTouched(capacity, ops);
    RecencyUnique(TouchLog(capacity, ops));
  }

  /** Position of a key's last touch. */
  function LastTouch<V>(log: seq<Entry<V>>, k: Key): (i: int)
    ensures -1 <= i < |log| && (i >= 0 ==> log[i].key == k)
    ensures forall j | i < j < |log| :: log[j].key != k
  {
    if log == [] then -1
    else if log[|log| - 1].key == k then |log| - 1
    else LastTouch(log[..|log| - 1], k)
  }

  lemma {:induction false} WithoutSelects<V>(s: seq<Entry<V>>, k: Key)
    ensures forall i | 0 <= i < |Without(s, k)| :: Without(s, k)[i] in s && Without(s, k)[i].key != k
  {
    if s != [] {
      WithoutSelects(s[..|s| - 1], k);
      assert s == s[..|s| - 1] + [s[|s| - 1]];
    }
  }

  /** Entries in the order of their last touch, each carrying the value of that touch. */
  ghost predicate InTouchOrder<V>(r: seq<Entry<V>>, log: seq<Entry<V>>) {
    && (forall e | e in r :: LastTouch(log, e.key) >= 0 && log[LastTouch(log, e.key)] == e)
    && forall i, j | 0 <= i < j < |r| :: LastTouch(log, r[i].key) < LastTouch(log, r[j].key)
  }

  lemma TouchedBefore<V>(init: seq<Entry<V>>, last: Entry<V>, log: seq<Entry<V>>, x: Entry<V>)
    requires InTouchOrder(init + [last], log) && x in init
    ensures LastTouch(log, x.key) < LastTouch(log, last.key)
  {
    var j :| 0 <= j < |init| && init[j] == x;
    assert (init + [last])[j] == x && (init + [last])[|init|] == last;
  }

  lemma OrderOfPrefix<V>(init: seq<Entry<V>>, last: Entry<V>, log: seq<Entry<V>>)
    requires InTouchOrder(init + [last], log)
    ensures InTouchOrder(init, log) && LastTouch(log, last.key) >= 0 && log[LastTouch(log, last.key)] == last
  {
    var r := init + [last];
    assert r[|init|] == last;
    assert forall i | 0 <= i < |init| :: r[i] == init[i];
  }

  lemma {:induction false} WithoutKeepsOrder<V>(r: seq<Entry<V>>, k: Key, log: seq<Entry<V>>)
    requires InTouchOrder(r, log)
    ensures InTouchOrder(Without(r, k), log)
  {
    if r != [] {
      var init, last := r[..|r| - 1], r[|r| - 1];
      assert r == init + [last];
      OrderOfPrefix(init, last, log);
      WithoutKeepsOrder(init, k, log);
      WithoutSelects(init, k);
      var w := Without(init, k);
      assert Without(r, k) == if last.key == k then w else w + [last];
      hide Without, InTouchOrder, LastTouch;
      forall x | x in w ensures LastTouch(log, x.key) < LastTouch(log, last.key) {
        TouchedBefore(init, last, log, x);
      }
      OrderMore(w, last, log);
    }
  }

  lemma OrderMore<V>(w: seq<Entry<V>>, last: Entry<V>, log: seq<Entry<V>>)
    requires InTouchOrder(w, log) && LastTouch(log, last.key) >= 0 && log[LastTouch(log, last.key)] == last
    requires forall x | x in w :: LastTouch(log, x.key) < LastTouch(log, last.key)
    ensures InTouchOrder(w + [last], log)
  {
    hide LastTouch;
  }

  lemma LastTouchAppend<V>(log: seq<Entry<V>>, e: Entry<V>, k: Key)
    ensures LastTouch(log + [e], k) == if k == e.key then |log| else LastTouch(log, k)
  {
    assert (log + [e])[..|log|] == log;
  }

  lemma RenewTouches<V>(r: seq<Entry<V>>, log: seq<Entry<V>>, e: Entry<V>)
    requires InTouchOrder(r, log)
    ensures InTouchOrder(Renew(r, e), log + [e])
  {
    hide LastTouch, InTouchOrder, Has;
    var w := Without(r, e.key);
    WithoutKeepsOrder(r, e.key, log);
    WithoutSelects(r, e.key);
    LastTouchAppend(log, e, e.key);
    forall x | x in w ensures x.key != e.key {
      var i :| 0 <= i < |w| && w[i] == x;
    }
    OrderKept(w, log, e);
    OrderMore(w, e, log + [e]);
  }

  lemma OrderKept<V>(w: seq<Entry<V>>, log: seq<Entry<V>>, e: Entry<V>)
    requires InTouchOrder(w, log) && forall x | x in w :: x.key != e.key
    ensures InTouchOrder(w, log + [e])
    ensures forall x | x in w :: LastTouch(log + [e], x.key) < |log|
  {
    hide LastTouch;
    forall x | x in w ensures LastTouch(log + [e], x.key) == LastTouch(log, x.key) {
      LastTouchAppend(log, e, x.key);
    }
    assert forall i | 0 <= i < |w| :: w[i] in w;
  }

  /** The recency list is ordered by last touch, and lists exactly the keys ever touched. */
  lemma {:induction false} RecencyIsLastTouchOrder<V>(log: seq<Entry<V>>)
    ensures InTouchOrder(Recency(log), log)
    ensures forall k: Key :: Has(Recency(log), k) <==> LastTouch(log, k) >= 0
  {
    if log != [] {
      var init, e := log[..|log| - 1], log[|log| - 1];
      RecencyIsLastTouchOrder(init);
      assert log == init + [e];
      TouchOnce(init, e);
      hide Recency, InTouchOrder, LastTouch;
      RenewTouches(Recency(init), init, e);
      RecencyKeys(Recency(init), init, e);
    }
  }

  lemma RecencyKeys<V>(r: seq<Entry<V>>, log: seq<Entry<V>>, e: Entry<V>)
    requires forall k: Key :: Has(r, k) <==> LastTouch(log, k) >= 0
    ensures forall k: Key :: Has(Renew(r, e), k) <==> LastTouch(log + [e], k) >= 0
  {
    hide LastTouch, Has;
    HasAppend(Without(r, e.key), e);
    forall k: Key ensures LastTouch(log + [e], k) == if k == e.key then |log| else LastTouch(log, k) {
      LastTouchAppend(log, e, k);
    }
  }

  /** The value most recently put under a key. */
  function LastPut<V>(ops: seq<Op<V>>, k: Key): Option<V> {
    if ops == [] then None
    else
      var op := ops[|ops| - 1];
      if op.Put? && op.key == k then Some(op.value) else LastPut(ops[..|ops| - 1], k)
  }

  /** Every entry the cache holds carries the value put last under its key, so a hit returns the latest put. */
  lemma {:induction false} EntriesAreLatest<V>(capacity: nat, ops: seq<Op<V>>)
    ensures forall i | 0 <= i < |Run(capacity, ops)| ::
      LastPut(ops, Run(capacity, ops)[i].key) == Some(Run(capacity, ops)[i].value)
  {
    if ops != [] {
      var earlier, op := ops[..|ops| - 1], ops[|ops| - 1];
      var before := Run(capacity, earlier);
      EntriesAreLatest(capacity, earlier);
      WithoutSelects(before, op.key);
      if op.Get? && Has(before, op.key) { var i := LookupIsEntry(before, op.key); }
    }
  }

  lemma {:induction false} LookupIsEntry<V>(s: seq<Entry<V>>, k: Key) returns (i: nat)
    requires Has(s, k)
    ensures i < |s| && s[i] == Entry(k, Lookup(s, k).value)
  {
    if s[|s| - 1].key == k {
      i := |s| - 1;
    } else {
      assert s == s[..|s| - 1] + [s[|s| - 1]];
      HasAppend(s[..|s| - 1], s[|s| - 1]);
      i := LookupIsEntry(s[..|s| - 1], k);
    }
  }

  lemma HitReturnsLatestPut<V>(capacity: nat, ops: seq<Op<V>>, k: Key)
    requires Has(Run(capacity, ops), k)
    ensures Lookup(Run(capacity, ops), k) == LastPut(ops, k)
  {
    EntriesAreLatest(capacity, ops);
    var i := LookupIsEntry(Run(capacity, ops), k);
  }

  // ---- Inclusion: a larger capacity never loses a hit ----

  /** `s` is obtained from `l` by leaving entries out. */
  ghost predicate Included<V>(s: seq<Entry<V>>, l: seq<Entry<V>>) {
    if s == [] then true
    else if l == [] then false
    else if s[|s| - 1] == l[|l| - 1] then Included(s[..|s| - 1], l[..|l| - 1])
    else Included(s, l[..|l| - 1])
  }

  lemma {:induction false} IncludedHas<V>(s: seq<Entry<V>>, l: seq<Entry<V>>)
    requires Included(s, l)
    ensures |s| <= |l|
    ensures |s| == |l| ==> s == l
    ensures forall i | 0 <= i < |s| :: exists j :: 0 <= j < |l| && l[j] == s[i]
    decreases |l|
  {
    if s != [] && s[|s| - 1] == l[|l| - 1] {
      IncludedHas(s[..|s| - 1], l[..|l| - 1]);
      assert s == s[..|s| - 1] + [s[|s| - 1]] && l == l[..|l| - 1] + [l[|l| - 1]];
    } else if s != [] {
      IncludedHas(s, l[..|l| - 1]);
    }
  }

  lemma {:induction false} IncludedDropSmall<V>(s: seq<Entry<V>>, l: seq<Entry<V>>, n: nat)
    requires Included(s, l) && n <= |s|
    ensures Included(s[n..], l)
    decreases |l|
  {
    if n == |s| {
    } else if s[|s| - 1] == l[|l| - 1] {
      IncludedDropSmall(s[..|s| - 1], l[..|l| - 1], n);
      assert s[n..][..|s[n..]| - 1] == s[..|s| - 1][n..];
    } else {
      IncludedDropSmall(s, l[..|l| - 1], n);
    }
  }

  lemma {:induction false} IncludedPopBoth<V>(s: seq<Entry<V>>, l: seq<Entry<V>>)
    requires Included(s, l) && s != []
    ensures l != [] && Included(s[1..], l[1..])
    decreases |l|
  {
    if |s| == 1 {
    } else if s[|s| - 1] == l[|l| - 1] {
      IncludedPopBoth(s[..|s| - 1], l[..|l| - 1]);
      IncludedHas(s[..|s| - 1], l[..|l| - 1]);
      assert s[1..][..|s[1..]| - 1] == s[..|s| - 1][1..];
      assert l[1..][..|l[1..]| - 1] == l[..|l| - 1][1..];
    } else {
      IncludedPopBoth(s, l[..|l| - 1]);
      IncludedHas(s, l[..|l| - 1]);
      assert l[1..][..|l[1..]| - 1] == l[..|l| - 1][1..];
    }
  }

  lemma {:induction false} IncludedExtend<V>(s: seq<Entry<V>>, l: seq<Entry<V>>, x: Entry<V>)
    requires Included(s, l)
    ensures Included(s, l + [x])
    decreases |l|, 0
  {
    assert (l + [x])[..|l|] == l;
    if s != [] && s[|s| - 1] == x {
      if s[|s| - 1] == l[|l| - 1] {
        var init := s[..|s| - 1];
        IncludedExtend(init, l[..|l| - 1], x);
        assert l == l[..|l| - 1] + [x];
      } else {
        var init := s[..|s| - 1];
        DropLastThenExtend(s, l[..|l| - 1], l[|l| - 1]);
        assert l == l[..|l| - 1] + [l[|l| - 1]];
      }
    }
  }

  lemma {:induction false} DropLastThenExtend<V>(s: seq<Entry<V>>, l: seq<Entry<V>>, x: Entry<V>)
    requires Included(s, l) && s != []
    ensures Included(s[..|s| - 1], l + [x])
    decreases |l|, 1
  {
    var init := s[..|s| - 1];
    if s[|s| - 1] == l[|l| - 1] {
      assert l == l[..|l| - 1] + [l[|l| - 1]];
      IncludedExtend(init, l[..|l| - 1], l[|l| - 1]);
    } else {
      DropLastThenExtend(s, l[..|l| - 1], l[|l| - 1]);
      assert l == l[..|l| - 1] + [l[|l| - 1]];
    }
    IncludedExtend(init, l, x);
  }

  lemma {:induction false} IncludedWithout<V>(s: seq<Entry<V>>, l: seq<Entry<V>>, k: Key)
    requires Included(s, l)
    ensures Included(Without(s, k), Without(l, k))
    decreases |l|
  {
    if s != [] {
      var lInit, x := l[..|l| - 1], l[|l| - 1];
      if s[|s| - 1] == x {
        IncludedWithout(s[..|s| - 1], lInit, k);
        if x.key != k { BothAppend(Without(s[..|s| - 1], k), Without(lInit, k), x); }
      } else {
        IncludedWithout(s, lInit, k);
        IncludedExtend(Without(s, k), Without(lInit, k), x);
      }
    }
  }

  lemma BothAppend<V>(s: seq<Entry<V>>, l: seq<Entry<V>>, x: Entry<V>)
    requires Included(s, l)
    ensures Included(s + [x], l + [x])
  {
    assert (s + [x])[..|s|] == s && (l + [x])[..|l|] == l;
  }

  /** What one run of the same operations keeps between a smaller and a larger cache. */
  ghost predicate Nested<V>(s: seq<Entry<V>>, n: nat, l: seq<Entry<V>>, m: nat) {
    Included(s, l) && (s == l || |s| == n) && |s| <= n && |l| <= m && UniqueKeys(s) && UniqueKeys(l)
  }

  lemma NestedHits<V>(s: seq<Entry<V>>, l: seq<Entry<V>>, k: Key)
    requires Included(s, l) && UniqueKeys(l) && Has(s, k)
    ensures Has(l, k) && Lookup(l, k) == Lookup(s, k)
  {
    IncludedHas(s, l);
    var i := LookupIsEntry(s, k);
    var j :| 0 <= j < |l| && l[j] == s[i];
    var h := LookupIsEntry(l, k);
    assert h == j;
  }

  lemma NestedStep<V>(s: seq<Entry<V>>, n: nat, l: seq<Entry<V>>, m: nat, op: Op<V>)
    requires n <= m && Nested(s, n, l, m)
    ensures Nested(Apply(s, n, op), n, Apply(l, m, op), m)
  {
    var k := op.key;
    if op.Put? {
      var e := Entry(k, op.value);
      NestedRenew(s, l, e);
      NestedTrim(s, n, l, m, Renew(s, e), Renew(l, e), Has(s, k), Has(l, k));
    } else if Has(s, k) {
      NestedHits(s, l, k);
      NestedRenew(s, l, Entry(k, Lookup(s, k).value));
    } else if Has(l, k) {
      var e := Entry(k, Lookup(l, k).value);
      assert s != l;
      IncludedWithout(s, l, k);
      IncludedExtend(s, Without(l, k), e);
      RenewUnique(l, e);
    }
  }

  lemma NestedRenew<V>(s: seq<Entry<V>>, l: seq<Entry<V>>, e: Entry<V>)
    requires Included(s, l) && UniqueKeys(s) && UniqueKeys(l)
    ensures Included(Renew(s, e), Renew(l, e)) && UniqueKeys(Renew(s, e)) && UniqueKeys(Renew(l, e))
    ensures |Renew(s, e)| == |s| + if Has(s, e.key) then 0 else 1
    ensures |Renew(l, e)| == |l| + if Has(l, e.key) then 0 else 1
    ensures Has(s, e.key) ==> Has(l, e.key)
  {
    IncludedWithout(s, l, e.key);
    BothAppend(Without(s, e.key), Without(l, e.key), e);
    RenewUnique(s, e);
    RenewUnique(l, e);
    if Has(s, e.key) { NestedHits(s, l, e.key); }
  }

  lemma NestedTrim<V>(s: seq<Entry<V>>, n: nat, l: seq<Entry<V>>, m: nat,
                      s': seq<Entry<V>>, l': seq<Entry<V>>, inSmall: bool, inLarge: bool)
    requires n <= m && Nested(s, n, l, m)
    requires Included(s', l') && UniqueKeys(s') && UniqueKeys(l') && (s == l ==> s' == l')
    requires |s'| == |s| + (if inSmall then 0 else 1) && |l'| == |l| + (if inLarge then 0 else 1)
    requires inSmall ==> inLarge
    ensures Nested(Newest(s', n), n, Newest(l', m), m)
  {
    hide Included, UniqueKeys, Newest;
    IncludedHas(s', l');
    TrimKeepsKeys(s', n);
    TrimKeepsKeys(l', m);
    TrimsOne(s', n);
    TrimsOne(l', m);
    if |l'| > m {
      IncludedPopBoth(s', l');
    } else if |s'| > n {
      IncludedDropSmall(s', l', 1);
    }
  }

  lemma TrimsOne<T>(s: seq<T>, n: nat)
    requires |s| <= n + 1
    ensures Newest(s, n) == if |s| > n then s[1..] else s
  {
  }

  lemma TrimKeepsKeys<V>(s: seq<Entry<V>>, n: nat)
    requires UniqueKeys(s)
    ensures UniqueKeys(Newest(s, n)) && |Newest(s, n)| <= n
    ensures |s| >= n ==> |Newest(s, n)| == n
  {
  }

  /** With the same operations, a cache of larger capacity holds everything a smaller one does, with the same values. */
  lemma {:induction false} LargerCacheKeepsHits<V>(n: nat, m: nat, ops: seq<Op<V>>)
    requires n <= m
    ensures Nested(Run(n, ops), n, Run(m, ops), m)
    ensures forall k: Key | Has(Run(n, ops), k) ::
      Has(Run(m, ops), k) && Lookup(Run(m, ops), k) == Lookup(Run(n, ops), k)
  {
    if ops != [] {
      var earlier := ops[..|ops| - 1];
      LargerCacheKeepsHits(n, m, earlier);
      NestedStep(Run(n, earlier), n, Run(m, earlier), m, ops[|ops| - 1]);
    }
    forall k: Key | Has(Run(n, ops), k)
      ensures Has(Run(m, ops), k) && Lookup(Run(m, ops), k) == Lookup(Run(n, ops), k)
    {
      NestedHits(Run(n, ops), Run(m, ops), k);
    }
  }

  // ---- When an entry leaves ----

  /** An entry leaves in one case only: a put of a new key into a full cache whose oldest entry it is. A get evicts
      nothing. */
  lemma LeavesIff<V>(s: seq<Entry<V>>, capacity: nat, op: Op<V>, k: Key)
    requires UniqueKeys(s) && |s| <= capacity && Has(s, k)
    ensures !Has(Apply(s, capacity, op), k) <==> op.Put? && !Has(s, op.key) && |s| == capacity && s[0].key == k
  {
    if op.Get? {
      if Has(s, op.key) { HasAppend(Without(s, op.key), Entry(op.key, Lookup(s, op.key).value)); }
    } else {
      var e := Entry(op.key, op.value);
      RenewUnique(s, e);
      HasAppend(Without(s, op.key), e);
      if |Renew(s, e)| > capacity { OldestLeaves(s, e, k); }
    }
  }

  lemma OldestLeaves<V>(s: seq<Entry<V>>, e: Entry<V>, k: Key)
    requires UniqueKeys(s) && !Has(s, e.key) && Has(s, k)
    ensures Has(Newest(s + [e], |s|), k) <==> s[0].key != k
  {
    var r := s + [e];
    assert Newest(r, |s|) == r[1..];
    var i :| 0 <= i < |s| && s[i].key == k;
    if i > 0 { assert r[1..][i - 1].key == k && s[0].key != s[i].key; }
    forall h | 0 <= h < |r[1..]| ensures i == 0 ==> r[1..][h].key != k {
      assert r[1..][h] == r[h + 1];
      if i == 0 && h + 1 < |s| { assert s[0].key != s[h + 1].key; }
    }
  }

  /** A superseded commit stays cached beside the newer one of the same job and endpoint: neither looking the newer one
      up nor storing it evicts the older. */
  lemma StaleCommitStays<V>(job: string, endpoint: string, stale: string, newer: string, v: V, w: V)
    requires stale != newer
    ensures var old', new' := Key(job, endpoint, stale), Key(job, endpoint, newer);
      var cache := Run(STRUCTURAL_CACHE_MAX_ENTRIES, [Op.Put(old', v), Op.Get(new'), Op.Put(new', w)]);
      Lookup(cache, old') == Some(v) && Lookup(cache, new') == Some(w)
  {
    hide Run, Without, Lookup;
    var x, y := Entry(Key(job, endpoint, stale), v), Entry(Key(job, endpoint, newer), w);
    var n, put, get := STRUCTURAL_CACHE_MAX_ENTRIES, [Op.Put(x.key, v)], [Op.Put(x.key, v), Op.Get(y.key)];
    assert [] + [Op.Put(x.key, v)] == put && put + [Op.Get(y.key)] == get;
    assert get + [Op.Put(y.key, w)] == [Op.Put(x.key, v), Op.Get(y.key), Op.Put(y.key, w)];
    RunMore(n, [], Op.Put(x.key, v));
    PutNew([], n, x);
    assert [] + [x] == [x];
    RunMore(n, put, Op.Get(y.key));
    assert !Has([x], y.key);
    RunMore(n, get, Op.Put(y.key, w));
    PutNew([x], n, y);
    LookupPair(x, y);
  }

  lemma LookupPair<V>(x: Entry<V>, y: Entry<V>)
    requires x.key != y.key
    ensures Lookup([x] + [y], x.key) == Some(x.value) && Lookup([x] + [y], y.key) == Some(y.value)
  {
    AppendLast([x], y);
    AppendLast([], x);
    assert [x] == [] + [x];
  }

  // ---- When a smaller cache is the newest part of a larger one ----

  predicate Known<V>(ops: seq<Op<V>>, k: Key) {
    exists i :: 0 <= i < |ops| && ops[i].Put? && ops[i].key == k
  }

  /** The operations that touch a cache which never evicts: puts, and gets of keys put before. */
  predicate Touching<V>(earlier: seq<Op<V>>, op: Op<V>) {
    op.Put? || Known(earlier, op.key)
  }

  /** The other keys touched since the last touch of `k`. */
  function Since<V>(ops: seq<Op<V>>, k: Key): set<Key> {
    if ops == [] then {}
    else
      var earlier, op := ops[..|ops| - 1], ops[|ops| - 1];
      if !Touching(earlier, op) then Since(earlier, k)
      else if op.key == k then {}
      else Since(earlier, k) + {op.key}
  }

  /** Every get of a key put before comes while fewer than `n` other keys have been touched since. */
  predicate Local<V>(ops: seq<Op<V>>, n: nat) {
    ops != [] ==>
      var earlier, op := ops[..|ops| - 1], ops[|ops| - 1];
      Local(earlier, n) && (op.Get? && Known(earlier, op.key) ==> |Since(earlier, op.key)| < n)
  }

  /** The touches of a cache that never evicts. */
  function AllTouches<V>(ops: seq<Op<V>>): seq<Entry<V>> {
    if ops == [] then []
    else
      var earlier, op := ops[..|ops| - 1], ops[|ops| - 1];
      AllTouches(earlier) + (match op
        case Put(k, v) => [Entry(k, v)]
        case Get(k) => match LastPut(earlier, k) case None => [] case Some(v) => [Entry(k, v)])
  }

  lemma {:induction false} KnownIsPut<V>(ops: seq<Op<V>>, k: Key)
    ensures Known(ops, k) <==> LastPut(ops, k).Some?
  {
    if ops != [] {
      var n := |ops| - 1;
      KnownIsPut(ops[..n], k);
      KnownMore(ops[..n], ops[n], k);
      assert ops == ops[..n] + [ops[n]];
    }
  }

  lemma KnownMore<V>(ops: seq<Op<V>>, op: Op<V>, k: Key)
    ensures Known(ops + [op], k) <==> Known(ops, k) || (op.Put? && op.key == k)
  {
    var all := ops + [op];
    assert all[|ops|] == op;
    if i :| 0 <= i < |ops| && ops[i].Put? && ops[i].key == k { assert all[i] == ops[i]; }
  }

  /** The keys of the entries behind the last entry of `k`. */
  function KeysAfter<V>(r: seq<Entry<V>>, k: Key): (keys: set<Key>)
    ensures forall x | x in keys :: Has(r, x)
  {
    if r == [] then {}
    else
      var init, last := r[..|r| - 1], r[|r| - 1];
      assert r == init + [last];
      HasAppend(init, last);
      if last.key == k then {} else KeysAfter(init, k) + {last.key}
  }

  lemma {:induction false} KeysAfterWithout<V>(r: seq<Entry<V>>, x: Key, k: Key)
    requires x != k
    ensures KeysAfter(Without(r, x), k) == KeysAfter(r, k) - {x}
  {
    if r != [] {
      var init, last := r[..|r| - 1], r[|r| - 1];
      KeysAfterWithout(init, x, k);
      if last.key != x { AppendLast(Without(init, x), last); }
    }
  }

  lemma KeysAfterRenew<V>(r: seq<Entry<V>>, e: Entry<V>, k: Key)
    ensures KeysAfter(Renew(r, e), k) == if k == e.key then {} else KeysAfter(r, k) + {e.key}
  {
    AppendLast(Without(r, e.key), e);
    if k != e.key { KeysAfterWithout(r, e.key, k); }
  }

  /** The recency list without evictions holds the keys put so far, each behind the keys touched since. */
  lemma {:induction false} RecencySince<V>(ops: seq<Op<V>>, k: Key)
    ensures var r := Recency(AllTouches(ops));
      && (Has(r, k) <==> Known(ops, k))
      && (Known(ops, k) ==> KeysAfter(r, k) == Since(ops, k))
  {
    if ops != [] {
      var n := |ops| - 1;
      var earlier, op := ops[..n], ops[n];
      RecencySince(earlier, k);
      KnownMore(earlier, op, k);
      KnownIsPut(earlier, op.key);
      assert ops == earlier + [op];
      if Touching(earlier, op) {
        var e := Entry(op.key, if op.Put? then op.value else LastPut(earlier, op.key).value);
        TouchOnce(AllTouches(earlier), e);
        assert AllTouches(ops) == AllTouches(earlier) + [e];
        hide AllTouches, Recency;
        HasAppend(Without(Recency(AllTouches(earlier)), e.key), e);
        KeysAfterRenew(Recency(AllTouches(earlier)), e, k);
      } else {
        assert AllTouches(ops) == AllTouches(earlier);
      }
    }
  }

  /** A key is among the newest `n` entries exactly when fewer than `n` entries are behind it. */
  lemma {:induction false} NewestHolds<V>(r: seq<Entry<V>>, k: Key, n: nat)
    requires UniqueKeys(r) && Has(r, k)
    ensures Has(Newest(r, n), k) <==> |KeysAfter(r, k)| < n
  {
    var init, last := r[..|r| - 1], r[|r| - 1];
    assert r == init + [last];
    HasAppend(init, last);
    NotAmong(init, last);
    if n == 0 {
      assert Newest(r, n) == [];
    } else {
      assert Newest(r, n) == Newest(init, n - 1) + [last];
      HasAppend(Newest(init, n - 1), last);
      if last.key != k { NewestHolds(init, k, n - 1); }
    }
  }

  /** On a local run a cache of capacity `n` is touched like one that never evicts. */
  lemma {:induction false} LocalTouches<V>(n: nat, ops: seq<Op<V>>)
    requires Local(ops, n)
    ensures TouchLog(n, ops) == AllTouches(ops)
  {
    if ops != [] {
      var earlier, op := ops[..|ops| - 1], ops[|ops| - 1];
      LocalTouches(n, earlier);
      if op.Get? {
        LocalHits(n, earlier, op.key);
        KnownIsPut(earlier, op.key);
        if Known(earlier, op.key) && Has(Run(n, earlier), op.key) { HitReturnsLatestPut(n, earlier, op.key); }
      }
    }
  }

  /** After a local run a key is cached exactly when it has been put and fewer than `n` others were touched since. */
  lemma LocalHits<V>(n: nat, ops: seq<Op<V>>, k: Key)
    requires TouchLog(n, ops) == AllTouches(ops)
    ensures Has(Run(n, ops), k) <==> Known(ops, k) && |Since(ops, k)| < n
  {
    hide Run, TouchLog, AllTouches, Recency, Known, Since;
    CacheIsNewestTouched(n, ops);
    RecencySince(ops, k);
    var r := Recency(AllTouches(ops));
    RecencyUnique(AllTouches(ops));
    if Has(r, k) { NewestHolds(r, k, n); } else { NewestHas(r, k, n); }
  }

  lemma NewestHas<V>(r: seq<Entry<V>>, k: Key, n: nat)
    ensures Has(Newest(r, n), k) ==> Has(r, k)
  {
    if Has(Newest(r, n), k) {
      var i :| 0 <= i < |Newest(r, n)| && Newest(r, n)[i].key == k;
      assert r[if |r| > n then |r| - n + i else i].key == k;
    }
  }

  lemma {:induction false} SinceIsBounded<V>(ops: seq<Op<V>>, k: Key)
    ensures |Since(ops, k)| <= |ops|
  {
    if ops != [] { SinceIsBounded(ops[..|ops| - 1], k); }
  }

  lemma {:induction false} LocalForLarger<V>(ops: seq<Op<V>>, n: nat, m: nat)
    requires (Local(ops, n) && n <= m) || m > |ops|
    ensures Local(ops, m)
  {
    if ops != [] {
      LocalForLarger(ops[..|ops| - 1], n, m);
      SinceIsBounded(ops[..|ops| - 1], ops[|ops| - 1].key);
    }
  }

  /** After the first `i` operations the cache of capacity `n` is the newest part of the one of capacity `m`. */
  ghost predicate NewestOfLarger<V>(n: nat, m: nat, ops: seq<Op<V>>, i: nat)
    requires i <= |ops|
  {
    Run(n, ops[..i]) == Newest(Run(m, ops[..i]), n)
  }

  /** At every moment of a run, a cache is the newest part of every larger one exactly when the run is local: no get
      asks for a key that `n` other keys have been touched after. */
  lemma SmallerIsNewestIffLocal<V>(n: nat, ops: seq<Op<V>>)
    requires n >= 1
    ensures Local(ops, n) <==> forall m, i | n <= m && 0 <= i <= |ops| :: NewestOfLarger(n, m, ops, i)
  {
    hide Local, Run, Newest, Since, Known;
    if Local(ops, n) {
      forall m, i | n <= m && 0 <= i <= |ops| ensures NewestOfLarger(n, m, ops, i) {
        LocalPrefix(ops, n, i);
        LocalIsNewest(n, m, ops[..i]);
      }
    } else {
      var i := FarGet(n, ops);
      FarGetDisagrees(n, ops[..i], ops[i]);
      TakeOneMore(ops, i);
      assert !NewestOfLarger(n, n + i + 1, ops, i + 1);
    }
  }

  lemma {:induction false} LocalPrefix<V>(ops: seq<Op<V>>, n: nat, i: nat)
    requires Local(ops, n) && i <= |ops|
    ensures Local(ops[..i], n)
    decreases |ops|
  {
    if i < |ops| {
      LocalPrefix(ops[..|ops| - 1], n, i);
      assert ops[..|ops| - 1][..i] == ops[..i];
    } else {
      assert ops[..i] == ops;
    }
  }

  lemma LocalIsNewest<V>(n: nat, m: nat, ops: seq<Op<V>>)
    requires Local(ops, n) && n <= m
    ensures Run(n, ops) == Newest(Run(m, ops), n)
  {
    hide *;
    LocalForLarger(ops, n, m);
    LocalTouches(n, ops);
    LocalTouches(m, ops);
    CacheIsNewestTouched(n, ops);
    CacheIsNewestTouched(m, ops);
    NewestOfNewest(Recency(AllTouches(ops)), n, m);
  }

  lemma NewestOfNewest<T>(s: seq<T>, n: nat, m: nat)
    requires n <= m
    ensures Newest(Newest(s, m), n) == Newest(s, n)
  {
  }

  /** The first get from too far back. */
  lemma {:induction false} FarGet<V>(n: nat, ops: seq<Op<V>>) returns (i: nat)
    requires !Local(ops, n)
    ensures i < |ops| && Local(ops[..i], n)
    ensures ops[i].Get? && Known(ops[..i], ops[i].key) && |Since(ops[..i], ops[i].key)| >= n
  {
    var last := |ops| - 1;
    if Local(ops[..last], n) {
      i := last;
    } else {
      i := FarGet(n, ops[..last]);
      assert ops[..last][..i] == ops[..i];
    }
  }

  lemma FarGetDisagrees<V>(n: nat, earlier: seq<Op<V>>, op: Op<V>)
    requires n >= 1 && Local(earlier, n)
    requires op.Get? && Known(earlier, op.key) && |Since(earlier, op.key)| >= n
    ensures Run(n, earlier + [op]) != Newest(Run(n + |earlier| + 1, earlier + [op]), n)
  {
    hide Run, Since, Known, Local, TouchLog, AllTouches;
    var m, k := n + |earlier| + 1, op.key;
    LocalForLarger(earlier, n, m);
    LocalTouches(n, earlier);
    LocalTouches(m, earlier);
    LocalHits(n, earlier, k);
    LocalHits(m, earlier, k);
    SinceIsBounded(earlier, k);
    RunMore(n, earlier, op);
    RunMore(m, earlier, op);
    var large := Run(m, earlier + [op]);
    assert large[|large| - 1].key == k;
    assert Newest(large, n)[|Newest(large, n)| - 1] == large[|large| - 1];
    assert Has(Newest(large, n), k);
  }

  /** A get that misses is no touch, so a smaller cache need not be the newest part of a larger one: here the larger
      cache renews an entry that the smaller one has already dropped. */
  lemma SmallerCacheMayDisagreeOnNewest<V>(a: Key, b: Key, v: V, w: V)
    requires a != b
    ensures var ops := [Op.Put(a, v), Op.Put(b, w), Op.Get(a)];
            Run(1, ops) == [Entry(b, w)] && Newest(Run(2, ops), 1) == [Entry(a, v)]
  {
    hide Run, Without, Lookup;
    var x, y := Entry(a, v), Entry(b, w);
    var put, puts := [Op.Put(a, v)], [Op.Put(a, v), Op.Put(b, w)];
    assert [] + [Op.Put(a, v)] == put && put + [Op.Put(b, w)] == puts
        && puts + [Op.Get(a)] == [Op.Put(a, v), Op.Put(b, w), Op.Get(a)];
    forall n | n in {1, 2} ensures Run(n, put) == [x] {
      RunMore(n, [], Op.Put(a, v));
      PutNew([], n, x);
    }
    forall n | n in {1, 2} ensures Run(n, puts) == Newest([x, y], n) {
      RunMore(n, put, Op.Put(b, w));
      PutNew([x], n, y);
      assert [x] + [y] == [x, y];
    }
    RunMore(1, puts, Op.Get(a));
    RunMore(2, puts, Op.Get(a));
    assert Newest([x, y], 1) == [y] && Newest([x, y], 2) == [x] + [y];
    assert !Has([y], a);
    RenewOlder(x, y);
  }

  lemma RunMore<V>(capacity: nat, ops: seq<Op<V>>, op: Op<V>)
    ensures Run(capacity, ops + [op]) == Apply(Run(capacity, ops), capacity, op)
    ensures Run<V>(capacity, []) == []
  {
    AppendLast(ops, op);
  }

  lemma PutNew<V>(s: seq<Entry<V>>, capacity: nat, e: Entry<V>)
    requires !Has(s, e.key)
    ensures Apply(s, capacity, Op.Put(e.key, e.value)) == Newest(s + [e], capacity)
  {
  }

  lemma RenewOlder<V>(x: Entry<V>, y: Entry<V>)
    requires x.key != y.key
    ensures Has([x] + [y], x.key) && Lookup([x] + [y], x.key) == Some(x.value)
    ensures Newest(Renew([x] + [y], x), 1) == [x]
  {
    AppendLast([x], y);
    AppendLast([], x);
    assert ([x] + [y])[0] == x;
    assert [x] == [] + [x];
  }
}
