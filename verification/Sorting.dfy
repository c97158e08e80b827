/** Strings in byte order and the sorted copy that slices.Sort and sort.Strings
    produce. */
module Sorting {

  /** Go's `a <= b` on strings: the first difference decides, a prefix comes first. */
  predicate Leq(a: string, b: string) {
    a == "" || (b != "" && (a[0] < b[0] || (a[0] == b[0] && Leq(a[1..], b[1..]))))
  }

  lemma {:induction false} LeqAntisymmetric(a: string, b: string)
    requires Leq(a, b) && Leq(b, a)
    ensures a == b
  {
    if a != "" {
      LeqAntisymmetric(a[1..], b[1..]);
      assert a == [a[0]] + a[1..] && b == [b[0]] + b[1..];
    }
  }

  lemma {:induction false} LeqTransitive(a: string, b: string, c: string)
    requires Leq(a, b) && Leq(b, c)
    ensures Leq(a, c)
  {
    if a != "" && a[0] == b[0] == c[0] { LeqTransitive(a[1..], b[1..], c[1..]); }
  }

  lemma {:induction false} LeqTotal(a: string, b: string)
    ensures Leq(a, b) || Leq(b, a)
  {
    if a != "" && b != "" && a[0] == b[0] { LeqTotal(a[1..], b[1..]); }
  }

  ghost predicate Sorted(xs: seq<string>) {
    forall i, j | 0 <= i < j < |xs| :: Leq(xs[i], xs[j])
  }

  function Insert(x: string, xs: seq<string>): (r: seq<string>)
    ensures multiset(r) == multiset(xs) + multiset{x}
  {
    if xs == [] then [x]
    else if Leq(x, xs[0]) then [x] + xs
    else
      assert xs == [xs[0]] + xs[1..];
      [xs[0]] + Insert(x, xs[1..])
  }

  /** The sorted copy. */
  function SortedCopy(xs: seq<string>): (r: seq<string>)
    ensures multiset(r) == multiset(xs)
  {
    if xs == [] then []
    else
      assert xs == [xs[0]] + xs[1..];
      Insert(xs[0], SortedCopy(xs[1..]))
  }

  lemma {:induction false} InsertSorts(x: string, xs: seq<string>)
    requires Sorted(xs)
    ensures Sorted(Insert(x, xs))
  {
    if xs != [] {
      LeqTotal(x, xs[0]);
      if Leq(x, xs[0]) {
        forall j | 0 <= j < |xs| ensures Leq(x, xs[j]) {
          if j > 0 { LeqTransitive(x, xs[0], xs[j]); }
        }
      } else {
        var r := Insert(x, xs[1..]);
        InsertSorts(x, xs[1..]);
        forall j | 0 <= j < |r| ensures Leq(xs[0], r[j]) {
          assert r[j] in multiset(r);
          if r[j] != x {
            assert r[j] in multiset(xs[1..]);
            var k :| 0 <= k < |xs[1..]| && xs[1..][k] == r[j];
            assert xs[k + 1] == r[j];
          }
        }
      }
    }
  }

  lemma {:induction false} SortedCopySorts(xs: seq<string>)
    ensures Sorted(SortedCopy(xs))
  {
    if xs != [] {
      SortedCopySorts(xs[1..]);
      InsertSorts(xs[0], SortedCopy(xs[1..]));
    }
  }

  lemma SameMembers(a: seq<string>, b: seq<string>)
    requires multiset(a) == multiset(b)
    ensures |a| == |b| && forall x :: x in a <==> x in b
  {
    assert |multiset(a)| == |a| && |multiset(b)| == |b|;
    forall x ensures x in a <==> x in b {
      assert (x in a <==> x in multiset(a)) && (x in b <==> x in multiset(b));
    }
  }

  lemma SortedHeadIsLeast(a: seq<string>, x: string)
    requires Sorted(a) && x in a
    ensures Leq(a[0], x)
  {
    LeqTotal(a[0], a[0]);
    var k :| 0 <= k < |a| && a[k] == x;
  }

  /** A multiset has one sorted order. */
  lemma {:induction false} SortedIsUnique(a: seq<string>, b: seq<string>)
    requires Sorted(a) && Sorted(b) && multiset(a) == multiset(b)
    ensures a == b
  {
    SameMembers(a, b);
    if a != [] {
      SortedHeadIsLeast(a, b[0]);
      SortedHeadIsLeast(b, a[0]);
      LeqAntisymmetric(a[0], b[0]);
      RemoveHead(a);
      RemoveHead(b);
      SortedIsUnique(a[1..], b[1..]);
    }
  }

  lemma RemoveHead(a: seq<string>)
    requires a != []
    ensures a == [a[0]] + a[1..] && multiset(a[1..]) == multiset(a) - multiset{a[0]}
    ensures Sorted(a) ==> Sorted(a[1..])
  {
  }

  /** Equal sorted copies are exactly equal multisets. */
  lemma SortedCopiesAgree(a: seq<string>, b: seq<string>)
    ensures SortedCopy(a) == SortedCopy(b) <==> multiset(a) == multiset(b)
  {
    if multiset(a) == multiset(b) {
      SortedCopySorts(a);
      SortedCopySorts(b);
      SortedIsUnique(SortedCopy(a), SortedCopy(b));
    }
  }

  /** The in-place sort of a clone, as an insertion sort over the unsorted rest. */
  method SortCopy(xs: seq<string>) returns (out: seq<string>)
    ensures out == SortedCopy(xs) && Sorted(out)
  {
    out := [];
    var i := |xs|;
    while i > 0
      invariant 0 <= i <= |xs| && out == SortedCopy(xs[i..])
    {
      i := i - 1;
      assert xs[i..][1..] == xs[i + 1..];
      out := Insert(xs[i], out);
    }
    assert xs[0..] == xs;
    SortedCopySorts(xs);
  }

  /** The head of the sorted copy is a least element. */
  lemma SortedHead(xs: seq<string>)
    requires xs != []
    ensures SortedCopy(xs) != [] && SortedCopy(xs)[0] in xs
    ensures forall x | x in xs :: Leq(SortedCopy(xs)[0], x)
  {
    var r := SortedCopy(xs);
    SortedCopySorts(xs);
    SameMembers(r, xs);
    assert r[0] in r;
    forall x | x in xs ensures Leq(r[0], x) {
      SortedHeadIsLeast(r, x);
    }
  }
}
