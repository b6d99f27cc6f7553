/** The sort key of a directory listing: directories first, then by name. */
module DirectoryOrder {
  import opened Common

  datatype Entry = Entry(name: string, isDir: bool)

  /** Tuple order of (not is_dir, name). */
  predicate KeyLeq(x: Entry, y: Entry) {
    (x.isDir && !y.isDir) || (x.isDir == y.isDir && StringLeq(x.name, y.name))
  }

  predicate Sorted(s: seq<Entry>) {
    forall i, j | 0 <= i < j < |s| :: KeyLeq(s[i], s[j])
  }

  /** `x` may stand ahead of `y`: no file ahead of a directory, and among equals no name that comes later. */
  ghost predicate MayPrecede(x: Entry, y: Entry) {
    (y.isDir ==> x.isDir) && (x.isDir == y.isDir ==> !ComesBefore(y.name, x.name))
  }

  /** A listing is sorted exactly when all directories stand ahead of all files, each kind in dictionary order. */
  lemma SortedMeansDirectoriesFirst(s: seq<Entry>)
    ensures Sorted(s) <==> forall i, j | 0 <= i < j < |s| :: MayPrecede(s[i], s[j])
  {
    hide StringLeq, ComesBefore;
    forall a, b ensures StringLeq(a, b) <==> !ComesBefore(b, a) { LeqIffNotAfter(a, b); }
    assert forall x, y :: KeyLeq(x, y) <==> MayPrecede(x, y);
  }

  lemma FirstIsLeast(s: seq<Entry>, x: Entry)
    requires Sorted(s) && x in s
    ensures KeyLeq(s[0], x)
  {
    StringLeqTotal(x.name, x.name);
  }

  /** Whatever order the directory is read in, sorting leaves one listing only: every request pages through the same
      one. */
  lemma {:induction false} SortedListingIsUnique(a: seq<Entry>, b: seq<Entry>)
    requires Sorted(a) && Sorted(b) && multiset(a) == multiset(b)
    ensures a == b
  {
    hide KeyLeq;
    if a == [] {
      assert |b| == |multiset(b)| == 0;
    } else {
      SameFirst(a, b);
      SameRest(a, b);
      SortedListingIsUnique(a[1..], b[1..]);
      assert a == [a[0]] + a[1..] && b == [b[0]] + b[1..];
    }
  }

  lemma SameRest<T>(a: seq<T>, b: seq<T>)
    requires a != [] && b != [] && a[0] == b[0] && multiset(a) == multiset(b)
    ensures multiset(a[1..]) == multiset(b[1..])
  {
    assert a == [a[0]] + a[1..] && b == [b[0]] + b[1..];
    assert multiset(a[1..]) == multiset(a) - multiset{a[0]};
    assert multiset(b[1..]) == multiset(b) - multiset{b[0]};
  }

  lemma SameFirst(a: seq<Entry>, b: seq<Entry>)
    requires Sorted(a) && Sorted(b) && multiset(a) == multiset(b) && a != []
    ensures b != [] && a[0] == b[0]
  {
    hide StringLeq;
    assert |b| == |multiset(b)| == |multiset(a)| == |a|;
    assert b[0] in multiset(b) && a[0] in multiset(a);
    assert b[0] in a && a[0] in b;
    FirstIsLeast(a, b[0]);
    FirstIsLeast(b, a[0]);
    StringLeqAntisymmetric(a[0].name, b[0].name);
  }
}
