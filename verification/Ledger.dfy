/** Cost buckets and dictionaries of buckets that start at zero, with their totals. */
module Ledger {
  import opened Common

  /** Costs are exact here; token columns and call counts are integers. */
  datatype Bucket = Bucket(cost: real, input: int, output: int, cacheRead: int, cacheWrite: int, calls: int)

  const ZERO := Bucket(0.0, 0, 0, 0, 0, 0)

  function Add(a: Bucket, b: Bucket): Bucket {
    Bucket(a.cost + b.cost, a.input + b.input, a.output + b.output,
           a.cacheRead + b.cacheRead, a.cacheWrite + b.cacheWrite, a.calls + b.calls)
  }

  function Get<K(==)>(m: map<K, Bucket>, k: K): Bucket {
    if k in m then m[k] else ZERO
  }

  /** `m[k]` of a default dictionary, increased by `x`. */
  function Credit<K(==)>(m: map<K, Bucket>, k: K, x: Bucket): map<K, Bucket> {
    m[k := Add(Get(m, k), x)]
  }

  lemma GetCredit<K>(m: map<K, Bucket>, k: K, x: Bucket, j: K)
    ensures Get(Credit(m, k, x), j) == if j == k then Add(Get(m, j), x) else Get(m, j)
  {
  }

  /** The sum of all buckets, column by column. */
  ghost function Total<K(!new)>(m: map<K, Bucket>): Bucket
    decreases |m|
  {
    if m == map[] then ZERO else var k :| k in m; Add(m[k], Total(m - {k}))
  }

  lemma {:induction false} TotalWithout<K(!new)>(m: map<K, Bucket>, k: K)
    requires k in m
    ensures Total(m) == Add(m[k], Total(m - {k}))
    decreases |m|
  {
    var j :| j in m && Total(m) == Add(m[j], Total(m - {j}));
    if j != k {
      TotalWithout(m - {j}, k);
      TotalWithout(m - {k}, j);
      assert m - {j} - {k} == m - {k} - {j};
      AddSwap(m[j], m[k], Total(m - {j} - {k}));
    }
  }

  lemma AddSwap(a: Bucket, b: Bucket, c: Bucket)
    ensures Add(a, Add(b, c)) == Add(b, Add(a, c)) && Add(a, b) == Add(b, a) && Add(ZERO, a) == a
  {
  }

  lemma TotalOfCredit<K(!new)>(m: map<K, Bucket>, k: K, x: Bucket)
    ensures Total(Credit(m, k, x)) == Add(Total(m), x)
  {
    var c := Credit(m, k, x);
    TotalWithout(c, k);
    if k in m {
      TotalWithout(m, k);
      assert c - {k} == m - {k};
    } else {
      assert c - {k} == m;
    }
  }

  ghost function Where<K(!new)>(m: map<K, Bucket>, p: K -> bool): map<K, Bucket> {
    map k | k in m && p(k) :: m[k]
  }

  lemma TotalWhereCredit<K(!new)>(m: map<K, Bucket>, k: K, x: Bucket, p: K -> bool)
    ensures Total(Where(Credit(m, k, x), p)) == if p(k) then Add(Total(Where(m, p)), x) else Total(Where(m, p))
  {
    if p(k) {
      assert Where(Credit(m, k, x), p) == Credit(Where(m, p), k, x);
      TotalOfCredit(Where(m, p), k, x);
    } else {
      assert Where(Credit(m, k, x), p) == Where(m, p);
    }
  }

  /** The sum of `m[k]` over a list of keys. */
  function SumOver<K(==)>(keys: seq<K>, m: map<K, Bucket>): Bucket {
    if keys == [] then ZERO else Add(SumOver(keys[..|keys| - 1], m), Get(m, keys[|keys| - 1]))
  }

  /** Summing over distinct keys is the total of the part of the dictionary that the keys select. */
  lemma {:induction false} SumOverIsTotal<K(!new)>(keys: seq<K>, m: map<K, Bucket>, p: K -> bool)
    requires forall i, j | 0 <= i < j < |keys| :: keys[i] != keys[j]
    requires forall k | k in m :: p(k) <==> k in keys
    ensures SumOver(keys, m) == Total(Where(m, p))
  {
    if keys == [] {
      assert Where(m, p) == map[];
    } else {
      var init, last := keys[..|keys| - 1], keys[|keys| - 1];
      var q := (k: K) => p(k) && k != last;
      assert keys == init + [last];
      assert last !in init;
      SumOverIsTotal(init, m, q);
      SelectOneMore(m, p, q, last);
    }
  }

  lemma SelectOneMore<K(!new)>(m: map<K, Bucket>, p: K -> bool, q: K -> bool, last: K)
    requires forall k :: q(k) <==> p(k) && k != last
    requires last in m ==> p(last)
    ensures Total(Where(m, p)) == Add(Total(Where(m, q)), Get(m, last))
  {
    if last in m {
      TotalWithout(Where(m, p), last);
      assert Where(m, p) - {last} == Where(m, q);
      AddSwap(m[last], Total(Where(m, q)), ZERO);
    } else {
      assert Where(m, p) == Where(m, q);
      AddSwap(ZERO, Total(Where(m, q)), ZERO);
    }
  }

  // ---- Sums over lists ----

  /** The sum of a quantity over a list. */
  function SumOf<T>(s: seq<T>, w: T -> Bucket): Bucket {
    if s == [] then ZERO else Add(SumOf(s[..|s| - 1], w), w(s[|s| - 1]))
  }

  lemma {:induction false} SameSums<S, T>(a: seq<S>, b: seq<T>, v: S -> Bucket, w: T -> Bucket)
    requires |a| == |b| && forall i | 0 <= i < |a| :: v(a[i]) == w(b[i])
    ensures SumOf(a, v) == SumOf(b, w)
  {
    if a != [] { SameSums(a[..|a| - 1], b[..|b| - 1], v, w); }
  }

  lemma AddLater(a: Bucket, x: Bucket, b: Bucket)
    ensures Add(Add(a, x), b) == Add(Add(a, b), x) && Add(a, Add(b, x)) == Add(Add(a, b), x) && Add(ZERO, a) == a
  {
  }

  lemma AddEither(a: Bucket, b: Bucket, x: Bucket)
    ensures Add(Add(a, b), x) == Add(Add(a, x), Add(b, ZERO)) == Add(Add(a, ZERO), Add(b, x))
  {
  }

  /** Sums that differ in one position only. */
  lemma {:induction false} SumsDifferAt<S, T>(a: seq<S>, b: seq<T>, v: S -> Bucket, w: T -> Bucket, j: nat, x: Bucket)
    requires |a| == |b| && j < |a| && v(a[j]) == Add(w(b[j]), x)
    requires forall i | 0 <= i < |a| && i != j :: v(a[i]) == w(b[i])
    ensures SumOf(a, v) == Add(SumOf(b, w), x)
  {
    var n := |a| - 1;
    if j == n {
      SameSums(a[..n], b[..n], v, w);
      AddLater(SumOf(b[..n], w), x, w(b[n]));
    } else {
      SumsDifferAt(a[..n], b[..n], v, w, j, x);
      AddLater(SumOf(b[..n], w), x, w(b[n]));
    }
  }

  lemma {:induction false} ZeroSum<T>(s: seq<T>, w: T -> Bucket)
    requires forall i | 0 <= i < |s| :: w(s[i]) == ZERO
    ensures SumOf(s, w) == ZERO
  {
    if s != [] {
      assert w(s[|s| - 1]) == ZERO;
      ZeroSum(s[..|s| - 1], w);
      AddLater(ZERO, ZERO, ZERO);
    }
  }

  lemma SumMore<T>(s: seq<T>, x: T, w: T -> Bucket)
    ensures SumOf(s + [x], w) == Add(SumOf(s, w), w(x))
  {
    AppendLast(s, x);
  }

  lemma {:induction false} CallsNonNegative<T>(s: seq<T>, w: T -> Bucket)
    requires forall i | 0 <= i < |s| :: w(s[i]).calls >= 0
    ensures SumOf(s, w).calls >= 0
  {
    if s != [] { CallsNonNegative(s[..|s| - 1], w); }
  }

  lemma {:induction false} OneContributes<T>(s: seq<T>, w: T -> Bucket, i: nat)
    requires forall k | 0 <= k < |s| :: w(s[k]).calls >= 0
    requires i < |s| && w(s[i]).calls >= 1
    ensures SumOf(s, w).calls >= 1
  {
    var n := |s| - 1;
    CallsNonNegative(s[..n], w);
    if i < n { OneContributes(s[..n], w, i); }
  }

  lemma {:induction false} TwoContribute<T>(s: seq<T>, w: T -> Bucket, i: nat, j: nat)
    requires forall k | 0 <= k < |s| :: w(s[k]).calls >= 0
    requires i < j < |s| && w(s[i]).calls >= 1 && w(s[j]).calls >= 1
    ensures SumOf(s, w).calls >= 2
  {
    var n := |s| - 1;
    if j == n {
      OneContributes(s[..n], w, i);
    } else {
      TwoContribute(s[..n], w, i, j);
    }
  }
}
