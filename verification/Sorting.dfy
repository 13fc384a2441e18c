/** Sorted lists of strings, as Python's `sorted` orders them: by code points, first difference. */
module Sorting {
  predicate Leq(a: string, b: string) {
    a == [] || (b != [] && (a[0] < b[0] || (a[0] == b[0] && Leq(a[1..], b[1..]))))
  }

  lemma {:induction false} Total(a: string, b: string)
    ensures Leq(a, b) || Leq(b, a)
  {
    if a != [] && b != [] && a[0] == b[0] { Total(a[1..], b[1..]); }
  }

  lemma {:induction false} Antisymmetric(a: string, b: string)
    requires Leq(a, b) && Leq(b, a)
    ensures a == b
  {
    if a != [] {
      Antisymmetric(a[1..], b[1..]);
      assert a == [a[0]] + a[1..] && b == [b[0]] + b[1..];
    }
  }

  lemma {:induction false} Transitive(a: string, b: string, c: string)
    requires Leq(a, b) && Leq(b, c)
    ensures Leq(a, c)
  {
    if a != [] && a[0] == b[0] == c[0] { Transitive(a[1..], b[1..], c[1..]); }
  }

  /** The first difference decides, by code point; a proper prefix comes first. */
  lemma {:induction false} FirstDifferenceDecides(a: string, b: string, k: nat)
    requires k <= |a| && k <= |b| && a[..k] == b[..k]
    ensures k < |a| && k < |b| && a[k] < b[k] ==> Leq(a, b) && !Leq(b, a)
    ensures k == |a| ==> Leq(a, b)
    ensures k == |a| < |b| ==> !Leq(b, a)
    decreases k
  {
    if k > 0 {
      assert a[0] == a[..k][0] == b[..k][0] == b[0];
      assert a[1..][..k - 1] == a[..k][1..] && b[1..][..k - 1] == b[..k][1..];
      FirstDifferenceDecides(a[1..], b[1..], k - 1);
    }
  }

  ghost predicate Sorted(xs: seq<string>) {
    forall i, j :: 0 <= i < j < |xs| ==> Leq(xs[i], xs[j])
  }

  function Insert(x: string, xs: seq<string>): seq<string> {
    if xs == [] || Leq(x, xs[0]) then [x] + xs else [xs[0]] + Insert(x, xs[1..])
  }

  function Sort(xs: seq<string>): seq<string> {
    if xs == [] then [] else Insert(xs[0], Sort(xs[1..]))
  }

  lemma {:induction false} InsertSorts(x: string, xs: seq<string>)
    requires Sorted(xs)
    ensures Sorted(Insert(x, xs)) && multiset(Insert(x, xs)) == multiset(xs) + multiset{x}
  {
    if xs == [] {
    } else if Leq(x, xs[0]) {
      forall i | 0 <= i < |xs| ensures Leq(x, xs[i]) {
        if i > 0 { Transitive(x, xs[0], xs[i]); }
      }
    } else {
      assert xs == [xs[0]] + xs[1..];
      InsertSorts(x, xs[1..]);
      Total(x, xs[0]);
      var r := Insert(x, xs[1..]);
      forall i | 0 <= i < |r| ensures Leq(xs[0], r[i]) {
        assert r[i] in multiset(r);
        if r[i] != x { assert r[i] in xs[1..]; }
      }
    }
  }

  lemma {:induction false} SortSorts(xs: seq<string>)
    ensures Sorted(Sort(xs)) && multiset(Sort(xs)) == multiset(xs)
  {
    if xs != [] {
      assert xs == [xs[0]] + xs[1..];
      SortSorts(xs[1..]);
      InsertSorts(xs[0], Sort(xs[1..]));
    }
  }

  lemma RestOf(xs: seq<string>)
    requires xs != []
    ensures xs == [xs[0]] + xs[1..] && multiset(xs[1..]) == multiset(xs) - multiset{xs[0]}
  {
    assert xs == [xs[0]] + xs[1..];
  }

  lemma {:induction false} SortedUnique(xs: seq<string>, ys: seq<string>)
    requires Sorted(xs) && Sorted(ys) && multiset(xs) == multiset(ys)
    ensures xs == ys
  {
    if xs == [] {
      assert |multiset(ys)| == 0;
    } else {
      assert |multiset(xs)| == |multiset(ys)|;
      assert xs[0] in multiset(ys) && ys[0] in multiset(xs);
      assert Leq(ys[0], xs[0]) && Leq(xs[0], ys[0]) by { HeadIsLeast(xs, ys[0]); HeadIsLeast(ys, xs[0]); }
      Antisymmetric(xs[0], ys[0]);
      RestOf(xs);
      RestOf(ys);
      SortedUnique(xs[1..], ys[1..]);
    }
  }

  lemma HeadIsLeast(xs: seq<string>, x: string)
    requires Sorted(xs) && x in xs
    ensures Leq(xs[0], x)
  {
    Total(x, x);
  }

  /** Two lists sort alike exactly when they hold the same values equally often. */
  lemma SortAlike(xs: seq<string>, ys: seq<string>)
    ensures Sort(xs) == Sort(ys) <==> multiset(xs) == multiset(ys)
  {
    SortSorts(xs);
    SortSorts(ys);
    if multiset(xs) == multiset(ys) { SortedUnique(Sort(xs), Sort(ys)); }
  }
}
