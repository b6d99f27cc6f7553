/** Small shared vocabulary: optional values, results, and the order Python uses to compare strings. */
module Common {
  datatype Option<+T> = None | Some(value: T)

  datatype Result<+T, +E> = Success(value: T) | Failure(error: E)

  /** Code-point lexicographic order, as `min` and `sorted` apply it to `str`. */
  predicate StringLeq(a: string, b: string) {
    a == [] || (b != [] && (a[0] < b[0] || (a[0] == b[0] && StringLeq(a[1..], b[1..]))))
  }

  /** The two strings agree before `i`, and there `a` has the smaller character. */
  ghost predicate SmallerAt(a: string, b: string, i: nat) {
    i < |a| && i < |b| && a[..i] == b[..i] && a[i] < b[i]
  }

  /** `a` stands strictly before `b` in a dictionary: it is a proper prefix of `b`, or the first character in which they
      differ is smaller in `a`. */
  ghost predicate ComesBefore(a: string, b: string) {
    a < b || exists i: nat :: SmallerAt(a, b, i)
  }

  lemma {:induction false} StringLeqMeaning(a: string, b: string)
    ensures StringLeq(a, b) <==> a <= b || exists i: nat :: SmallerAt(a, b, i)
  {
    if a != [] && b != [] && a[0] == b[0] {
      var s, t := a[1..], b[1..];
      StringLeqMeaning(s, t);
      assert a == [a[0]] + s && b == [b[0]] + t;
      if i: nat :| SmallerAt(s, t, i) {
        var next := i + 1;
        assert a[..next] == [a[0]] + s[..i] && b[..next] == [b[0]] + t[..i];
        assert SmallerAt(a, b, next);
      }
      if i: nat :| SmallerAt(a, b, i) {
        var before := i - 1;
        assert a[..i] == [a[0]] + s[..before] && b[..i] == [b[0]] + t[..before];
        assert a[..i][1..] == s[..before] && b[..i][1..] == t[..before];
        assert SmallerAt(s, t, before);
      }
    } else if a != [] && b != [] && a[0] < b[0] {
      assert SmallerAt(a, b, 0);
    } else if i: nat :| SmallerAt(a, b, i) {
      assert i == 0 || a[..i][0] == b[..i][0];
    }
  }

  /** `a` is at most `b` exactly when `b` does not come before it. */
  lemma LeqIffNotAfter(a: string, b: string)
    ensures StringLeq(a, b) <==> !ComesBefore(b, a)
  {
    StringLeqMeaning(b, a);
    StringLeqTotal(a, b);
    if StringLeq(a, b) && StringLeq(b, a) {
      StringLeqAntisymmetric(a, b);
      NothingBeforeItself(a);
    } else if StringLeq(b, a) {
      StringLeqTotal(a, a);
      assert a != b;
    }
  }

  lemma NothingBeforeItself(a: string)
    ensures !ComesBefore(a, a)
  {
  }

  lemma {:induction false} StringLeqTotal(a: string, b: string)
    ensures StringLeq(a, b) || StringLeq(b, a)
  {
    if a != [] && b != [] && a[0] == b[0] {
      StringLeqTotal(a[1..], b[1..]);
    }
  }

  lemma {:induction false} StringLeqAntisymmetric(a: string, b: string)
    requires StringLeq(a, b) && StringLeq(b, a)
    ensures a == b
  {
    if a != [] {
      StringLeqAntisymmetric(a[1..], b[1..]);
      assert a == [a[0]] + a[1..] && b == [b[0]] + b[1..];
    }
  }

  lemma {:induction false} StringLeqTransitive(a: string, b: string, c: string)
    requires StringLeq(a, b) && StringLeq(b, c)
    ensures StringLeq(a, c)
  {
    if a != [] && a[0] == b[0] && b[0] == c[0] {
      StringLeqTransitive(a[1..], b[1..], c[1..]);
    }
  }

  ghost predicate IsLeast(m: string, s: set<string>) {
    m in s && forall x | x in s :: StringLeq(m, x)
  }

  lemma {:induction false} LeastExists(s: set<string>) returns (m: string)
    requires s != {}
    ensures IsLeast(m, s)
  {
    var x :| x in s;
    StringLeqTotal(x, x);
    if s == {x} {
      m := x;
    } else {
      var rest := s - {x};
      m := LeastExists(rest);
      var least := m;
      StringLeqTotal(x, least);
      if StringLeq(x, least) {
        forall y | y in s ensures StringLeq(x, y) {
          if y != x { StringLeqTransitive(x, least, y); }
        }
        m := x;
      }
    }
  }

  lemma LeastIsUnique(m: string, n: string, s: set<string>)
    requires IsLeast(m, s) && IsLeast(n, s)
    ensures m == n
  {
    StringLeqAntisymmetric(m, n);
  }

  /** `min` over a non-empty list of strings. */
  function Least(ids: seq<string>): (m: string)
    requires ids != []
    ensures m in ids
    ensures forall x | x in ids :: StringLeq(m, x)
  {
    StringLeqTotal(ids[0], ids[0]);
    if |ids| == 1 then ids[0]
    else
      var rest := Least(ids[1..]);
      StringLeqTotal(ids[0], rest);
      assert ids == [ids[0]] + ids[1..];
      if StringLeq(ids[0], rest) then
        assert forall x | x in ids[1..] :: StringLeq(ids[0], x) by {
          forall x | x in ids[1..] ensures StringLeq(ids[0], x) { StringLeqTransitive(ids[0], rest, x); }
        }
        ids[0]
      else rest
  }

  /** The elements of a finite set, in some order. */
  method SetToSeq<T(==)>(s: set<T>) returns (q: seq<T>)
    ensures forall x :: x in q <==> x in s
    ensures |q| == |s|
  {
    q := [];
    var rest := s;
    while rest != {}
      invariant rest <= s
      invariant forall x :: x in q <==> x in s - rest
      invariant |q| + |rest| == |s|
      decreases |rest|
    {
      var x :| x in rest;
      q, rest := q + [x], rest - {x};
    }
  }

  lemma TakeOneMore<T>(s: seq<T>, k: nat)
    requires k < |s|
    ensures s[..k + 1] == s[..k] + [s[k]]
  {
  }

  lemma AppendLast<T>(s: seq<T>, x: T)
    ensures (s + [x])[..|s|] == s && (s + [x])[|s|] == x && |s + [x]| == |s| + 1
  {
  }
}
