/** Filtering and mapping a list in one pass. */
module FilterMaps {
  import opened Common
  import opened Ledger

  function FilterMap<T, U>(s: seq<T>, f: T -> Option<U>): seq<U> {
    if s == [] then []
    else
      var rest := FilterMap(s[..|s| - 1], f);
      match f(s[|s| - 1])
      case None => rest
      case Some(u) => rest + [u]
  }

  function Then<T, U, V>(f: T -> Option<U>, g: U -> Option<V>): T -> Option<V> {
    (x: T) => match f(x) case None => None case Some(y) => g(y)
  }

  lemma {:induction false} FilterMapCompose<T, U, V>(s: seq<T>, f: T -> Option<U>, g: U -> Option<V>)
    ensures FilterMap(FilterMap(s, f), g) == FilterMap(s, Then(f, g))
  {
    if s != [] {
      FilterMapCompose(s[..|s| - 1], f, g);
      if f(s[|s| - 1]).Some? { AppendLast(FilterMap(s[..|s| - 1], f), f(s[|s| - 1]).value); }
    }
  }

  /** Lists of equal length whose elements map alike have the same image. */
  lemma {:induction false} FilterMapSame<S, T, U>(r: seq<S>, s: seq<T>, f: S -> Option<U>, g: T -> Option<U>)
    requires |r| == |s| && forall i | 0 <= i < |s| :: f(r[i]) == g(s[i])
    ensures FilterMap(r, f) == FilterMap(s, g)
  {
    if s != [] { FilterMapSame(r[..|r| - 1], s[..|s| - 1], f, g); }
  }

  lemma {:induction false} FilterMapAll<T>(s: seq<T>, f: T -> Option<T>)
    requires forall i | 0 <= i < |s| :: f(s[i]) == Some(s[i])
    ensures FilterMap(s, f) == s
  {
    if s != [] {
      FilterMapAll(s[..|s| - 1], f);
      assert s == s[..|s| - 1] + [s[|s| - 1]];
    }
  }

  lemma {:induction false} FilterMapImage<T, U>(s: seq<T>, f: T -> Option<U>)
    ensures forall u | u in FilterMap(s, f) :: exists i :: 0 <= i < |s| && f(s[i]) == Some(u)
  {
    if s != [] {
      var n := |s| - 1;
      FilterMapImage(s[..n], f);
      forall u | u in FilterMap(s, f) ensures exists i :: 0 <= i < |s| && f(s[i]) == Some(u) {
        if u in FilterMap(s[..n], f) {
          var i :| 0 <= i < n && f(s[..n][i]) == Some(u);
          assert f(s[i]) == Some(u);
        } else {
          assert f(s[n]) == Some(u);
        }
      }
    }
  }

  lemma {:induction false} FilterMapPrefix<T, U>(s: seq<T>, n: nat, f: T -> Option<U>)
    requires n <= |s|
    ensures FilterMap(s[..n], f) <= FilterMap(s, f)
    decreases |s|
  {
    if n < |s| {
      FilterMapPrefix(s[..|s| - 1], n, f);
      assert s[..|s| - 1][..n] == s[..n];
    } else {
      assert s[..n] == s;
    }
  }

  lemma FilterMapMore<T, U>(s: seq<T>, x: T, f: T -> Option<U>)
    ensures FilterMap(s + [x], f) == match f(x) case None => FilterMap(s, f) case Some(u) => FilterMap(s, f) + [u]
  {
    AppendLast(s, x);
  }

  /** A sum over the image is a sum over the list, where a dropped element weighs nothing. */
  lemma {:induction false} SumOfFilterMap<T, U>(s: seq<T>, f: T -> Option<U>, w: U -> Bucket, v: T -> Bucket)
    requires forall i | 0 <= i < |s| :: v(s[i]) == match f(s[i]) case None => ZERO case Some(u) => w(u)
    ensures SumOf(FilterMap(s, f), w) == SumOf(s, v)
  {
    if s != [] {
      var init, last := s[..|s| - 1], s[|s| - 1];
      SumOfFilterMap(init, f, w, v);
      match f(last) {
        case None => AddLater(SumOf(init, v), ZERO, ZERO);
        case Some(u) => SumMore(FilterMap(init, f), u, w);
      }
    }
  }
}
