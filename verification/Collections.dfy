/** Optional values, and lists without repetition as enumerations of sets. */
module Collections {
  datatype Option<+T> = None | Some(value: T)

  ghost predicate Distinct<T>(s: seq<T>) {
    forall i, j :: 0 <= i < j < |s| ==> s[i] != s[j]
  }

  /** Positions in order. */
  ghost predicate Increasing(ix: seq<nat>) {
    forall a, b :: 0 <= a < b < |ix| ==> ix[a] < ix[b]
  }

  /** Each member of the set once. */
  ghost predicate Lists<T(!new)>(s: seq<T>, all: set<T>) {
    Distinct(s) && forall x :: x in s <==> x in all
  }

  lemma SubsetSize<T>(a: set<T>, b: set<T>)
    requires a <= b
    ensures |a| <= |b|
  {
    assert b == a + (b - a);
  }

  lemma {:induction false} DistinctSize<T>(s: seq<T>)
    requires Distinct(s)
    ensures |set x | x in s| == |s|
  {
    if s != [] {
      DistinctSize(s[1..]);
      var rest := set x | x in s[1..];
      assert s[0] !in rest;
      ElementsOf(s);
    }
  }

  lemma ElementsOf<T>(s: seq<T>)
    requires s != []
    ensures (set x | x in s) == (set x | x in s[1..]) + {s[0]}
  {
    assert s == [s[0]] + s[1..];
  }

  /** Two enumerations of the same things are equally long. */
  lemma SameSize<T>(a: seq<T>, b: seq<T>)
    requires Distinct(a) && Distinct(b) && forall x :: x in a <==> x in b
    ensures |a| == |b|
  {
    DistinctSize(a);
    DistinctSize(b);
    assert (set x | x in a) == (set x | x in b);
  }

  lemma ListsSize<T(!new)>(s: seq<T>, all: set<T>)
    requires Lists(s, all)
    ensures |s| == |all|
  {
    DistinctSize(s);
    assert (set x | x in s) == all;
  }
}
