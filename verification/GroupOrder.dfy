/**
 * Five groups of ids around a home group, in an order of distance: when is the front of
 * a sort of the middle three the front of the full sort?
 */
module GroupOrder {
  import opened Collections
  import opened Keyspace
  import opened DistanceOrder

  /** Peers before the left neighbour, in it, at home, in the right neighbour, and beyond it. */
  datatype Around = Around(before: seq<Id>, left: seq<Id>, home: seq<Id>, right: seq<Id>, beyond: seq<Id>) {
    function All(): seq<Id> { before + left + home + right + beyond }
  }

  /** Home first, then everything to the right, then the left from the inside out. */
  ghost predicate InOrder(g: Around, metric: Id -> nat, away: bool) {
    && AllNearer(g.home, g.right, metric) && AllNearer(g.home, g.beyond, metric)
    && AllNearer(g.home, g.left, metric) && AllNearer(g.home, g.before, metric)
    && AllNearer(g.right, g.left, metric) && AllNearer(g.right, g.before, metric)
    && AllNearer(g.beyond, g.left, metric) && AllNearer(g.beyond, g.before, metric)
    && AllNearer(g.left, g.before, metric)
    && (if away then AllNearer(g.right, g.beyond, metric) else AllNearer(g.beyond, g.right, metric))
  }

  /** When reading home, and both neighbours if home is short, is enough. */
  ghost predicate Enough(g: Around, count: int, away: bool) {
    || |g.home| >= count
    || (g.beyond == [] && (g.before == [] || |g.home| + |g.left| + |g.right| >= count))
    || (away && |g.home| + |g.right| >= count)
  }

  // ---------- sorting groups that are already in order ----------

  function Flat(ls: seq<seq<Id>>): seq<Id> {
    if ls == [] then [] else ls[0] + Flat(ls[1..])
  }

  function SortEach(ls: seq<seq<Id>>, metric: Id -> nat): seq<Id> {
    if ls == [] then [] else SortIds(ls[0], metric) + SortEach(ls[1..], metric)
  }

  ghost predicate Chain(ls: seq<seq<Id>>, metric: Id -> nat) {
    forall i, j :: 0 <= i < j < |ls| ==> AllNearer(ls[i], ls[j], metric)
  }

  lemma {:induction false} NearerFlat(x: seq<Id>, ls: seq<seq<Id>>, metric: Id -> nat)
    requires forall j :: 0 <= j < |ls| ==> AllNearer(x, ls[j], metric)
    ensures AllNearer(x, Flat(ls), metric)
  {
    if ls != [] {
      NearerFlat(x, ls[1..], metric);
      NearerConcat(x, ls[0], Flat(ls[1..]), metric);
    }
  }

  lemma NearerConcat(x: seq<Id>, y: seq<Id>, z: seq<Id>, metric: Id -> nat)
    requires AllNearer(x, y, metric) && AllNearer(x, z, metric)
    ensures AllNearer(x, y + z, metric)
  {
    assert forall i :: |y| <= i < |y + z| ==> (y + z)[i] == z[i - |y|];
  }

  /** Sorting a chain of groups is sorting each group in turn. */
  lemma {:induction false} SortChain(all: seq<Id>, ls: seq<seq<Id>>, metric: Id -> nat)
    requires Apart(all, metric) && multiset(all) == multiset(Flat(ls)) && Chain(ls, metric)
    ensures SortIds(all, metric) == SortEach(ls, metric)
    decreases ls
  {
    if ls == [] {
      SortIdsPermutes(all, metric);
      assert |multiset(all)| == 0;
    } else {
      NearerFlat(ls[0], ls[1..], metric);
      SortSplit(all, ls[0], Flat(ls[1..]), metric);
      SortChain(Flat(ls[1..]), ls[1..], metric);
    }
  }

  lemma FlatCons(x: seq<Id>, ls: seq<seq<Id>>, metric: Id -> nat)
    ensures Flat([x] + ls) == x + Flat(ls)
    ensures SortEach([x] + ls, metric) == SortIds(x, metric) + SortEach(ls, metric)
  {
    assert ([x] + ls)[1..] == ls;
  }

  lemma FiveFlat(a: seq<Id>, b: seq<Id>, c: seq<Id>, d: seq<Id>, e: seq<Id>, metric: Id -> nat)
    ensures Flat([a] + ([b] + ([c] + ([d] + ([e] + []))))) == a + b + c + d + e
    ensures SortEach([a] + ([b] + ([c] + ([d] + ([e] + [])))), metric)
            == SortIds(a, metric) + SortIds(b, metric) + SortIds(c, metric) + SortIds(d, metric) + SortIds(e, metric)
  {
    FlatCons(e, [], metric);
    FlatCons(d, [e] + [], metric);
    FlatCons(c, [d] + ([e] + []), metric);
    FlatCons(b, [c] + ([d] + ([e] + [])), metric);
    FlatCons(a, [b] + ([c] + ([d] + ([e] + []))), metric);
    Regroup(a, b, c, d, e);
    Regroup(SortIds(a, metric), SortIds(b, metric), SortIds(c, metric), SortIds(d, metric), SortIds(e, metric));
  }

  lemma Regroup(a: seq<Id>, b: seq<Id>, c: seq<Id>, d: seq<Id>, e: seq<Id>)
    ensures a + (b + (c + (d + (e + [])))) == a + b + c + d + e
  {
    assert e + [] == e;
    assert c + (d + e) == c + d + e;
    assert a + (b + (c + d + e)) == a + b + (c + d + e);
  }

  lemma ChainCons(x: seq<Id>, ls: seq<seq<Id>>, metric: Id -> nat)
    requires Chain(ls, metric) && forall j :: 0 <= j < |ls| ==> AllNearer(x, ls[j], metric)
    ensures Chain([x] + ls, metric)
  {
  }

  lemma FiveChain(a: seq<Id>, b: seq<Id>, c: seq<Id>, d: seq<Id>, e: seq<Id>, metric: Id -> nat)
    requires AllNearer(a, b, metric) && AllNearer(a, c, metric) && AllNearer(a, d, metric) && AllNearer(a, e, metric)
    requires AllNearer(b, c, metric) && AllNearer(b, d, metric) && AllNearer(b, e, metric)
    requires AllNearer(c, d, metric) && AllNearer(c, e, metric) && AllNearer(d, e, metric)
    ensures Chain([a] + ([b] + ([c] + ([d] + ([e] + [])))), metric)
  {
    ChainCons(e, [], metric);
    ChainCons(d, [e] + [], metric);
    ChainCons(c, [d] + ([e] + []), metric);
    ChainCons(b, [c] + ([d] + ([e] + [])), metric);
    ChainCons(a, [b] + ([c] + ([d] + ([e] + []))), metric);
  }

  /** The full sort is the sorts of the groups one after the other ... */
  lemma SortAround(g: Around, metric: Id -> nat, away: bool)
    requires InOrder(g, metric, away) && Apart(g.All(), metric)
    ensures var h, l, r := SortIds(g.home, metric), SortIds(g.left, metric), SortIds(g.right, metric);
            var b, f := SortIds(g.beyond, metric), SortIds(g.before, metric);
            SortIds(g.All(), metric) == if away then h + r + b + l + f else h + b + r + l + f
  {
    var x, y := if away then g.right else g.beyond, if away then g.beyond else g.right;
    FiveChain(g.home, x, y, g.left, g.before, metric);
    FiveFlat(g.home, x, y, g.left, g.before, metric);
    SortChain(g.All(), [g.home] + ([x] + ([y] + ([g.left] + ([g.before] + [])))), metric);
  }

  /** ... and so is the sort of what is read. */
  lemma SortRead(g: Around, metric: Id -> nat, away: bool)
    requires InOrder(g, metric, away) && Apart(g.All(), metric)
    ensures SortIds(g.home + g.left + g.right, metric)
            == SortIds(g.home, metric) + SortIds(g.right, metric) + SortIds(g.left, metric)
  {
    var read, rest := g.home + g.left + g.right, g.beyond + g.before;
    assert Apart(read, metric) by {
      ApartPermuted(g.All(), read + rest, metric);
      ApartParts(read, rest, metric);
    }
    NearerConcat(g.home, g.right, g.left, metric);
    SortSplit(read, g.home, g.right + g.left, metric);
    SortSplit(g.right + g.left, g.right, g.left, metric);
  }

  /** Fronts of two lists that differ by a piece `c` put in after `a` and a piece `e` at the end. */
  lemma FrontsEqual(a: seq<Id>, c: seq<Id>, d: seq<Id>, e: seq<Id>, n: int)
    requires forall p :: p in c ==> p !in d
    ensures Take(a + d, n) == Take(a + c + d + e, n)
            <==> |a| >= n || (c == [] && (e == [] || |a| + |d| >= n))
  {
    var x, y := a + d, a + c + d + e;
    if |a| < n {
      if c != [] {
        assert Take(y, n)[|a|] == c[0];
        assert c[0] in c;
        if |Take(x, n)| > |a| { assert Take(x, n)[|a|] == d[0] && d[0] in d; }
      } else {
        assert y == x + e;
      }
    }
  }

  lemma AroundFronts(h: seq<Id>, l: seq<Id>, r: seq<Id>, b: seq<Id>, f: seq<Id>, away: bool, n: int)
    requires forall p :: p in b ==> p !in l && p !in r
    ensures var all := if away then h + r + b + l + f else h + b + r + l + f;
            Take(if |h| >= n then h else h + r + l, n) == Take(all, n)
            <==> || |h| >= n
                 || (b == [] && (f == [] || |h| + |l| + |r| >= n))
                 || (away && |h| + |r| >= n)
  {
    if |h| >= n {
      assert Take(h, n) == Take(if away then h + r + b + l + f else h + b + r + l + f, n);
    } else if away {
      FrontsEqual(h + r, b, l, f, n);
    } else {
      assert h + b + r + l + f == h + b + (r + l) + f && h + (r + l) == h + r + l;
      FrontsEqual(h, b, r + l, f, n);
    }
  }

  lemma BeyondUnread(g: Around, metric: Id -> nat)
    requires Apart(g.All(), metric)
    ensures forall p :: p in SortIds(g.beyond, metric)
              ==> p !in SortIds(g.left, metric) && p !in SortIds(g.right, metric)
  {
    SortIdsPermutes(g.left, metric);
    SortIdsPermutes(g.right, metric);
    SortIdsPermutes(g.beyond, metric);
    var all, l, r := g.All(), |g.before|, |g.before + g.left + g.home|;
    var b := r + |g.right|;
    assert forall i :: 0 <= i < |g.left| ==> all[l + i] == g.left[i];
    assert forall i :: 0 <= i < |g.right| ==> all[r + i] == g.right[i];
    assert forall i :: 0 <= i < |g.beyond| ==> all[b + i] == g.beyond[i];
  }

  lemma AroundExact(g: Around, metric: Id -> nat, away: bool, count: int)
    requires InOrder(g, metric, away) && Apart(g.All(), metric)
    ensures var read := if |g.home| >= count then g.home else g.home + g.left + g.right;
            Take(SortIds(read, metric), count) == Take(SortIds(g.All(), metric), count)
            <==> Enough(g, count, away)
  {
    SortAround(g, metric, away);
    SortRead(g, metric, away);
    SortIdsPermutes(g.home, metric);
    SortIdsPermutes(g.left, metric);
    SortIdsPermutes(g.right, metric);
    SortIdsPermutes(g.beyond, metric);
    SortIdsPermutes(g.before, metric);
    BeyondUnread(g, metric);
    AroundFronts(SortIds(g.home, metric), SortIds(g.left, metric), SortIds(g.right, metric),
                 SortIds(g.beyond, metric), SortIds(g.before, metric), away, count);
  }

  // ---------- the reference ----------

  /** Reference: `r` lists, nearest first, the `count` ids of `ids` nearest by `metric`. */
  ghost predicate IsNearest(r: seq<Id>, ids: seq<Id>, metric: Id -> nat, count: int) {
    && |r| == (if count <= 0 then 0 else if count <= |ids| then count else |ids|)
    && Ascending(r, metric)
    && (forall p :: p in r ==> p in ids)
    && (forall p, q :: p in ids && p !in r && q in r ==> metric(q) < metric(p))
  }

  lemma FrontOfSortIsNearest(ids: seq<Id>, metric: Id -> nat, count: int)
    requires Apart(ids, metric)
    ensures IsNearest(Take(SortIds(ids, metric), count), ids, metric, count)
  {
    SortIdsPermutes(ids, metric);
    SortIdsAscends(ids, metric);
    var s := SortIds(ids, metric);
    var r := Take(s, count);
    assert forall j :: 0 <= j < |r| ==> s[j] == r[j] && s[j] in r;
    forall p, q | p in ids && p !in r && q in r
      ensures metric(q) < metric(p)
    {
      assert p in s;
      var i :| 0 <= i < |s| && s[i] == p;
      var j :| 0 <= j < |r| && r[j] == q;
      assert i >= |r|;
    }
    forall p | p in r
      ensures p in ids
    {
      assert p in s;
    }
  }

  /** Two lists that both satisfy the reference are the same. */
  lemma {:induction false} NearestUnique(r: seq<Id>, s: seq<Id>, ids: seq<Id>, metric: Id -> nat, count: int)
    requires Apart(ids, metric) && IsNearest(r, ids, metric, count) && IsNearest(s, ids, metric, count)
    ensures r == s
  {
    forall p | p in r
      ensures p in s
    {
      Outside(r, s, ids, p, metric, count);
    }
    forall p | p in s
      ensures p in r
    {
      Outside(s, r, ids, p, metric, count);
    }
    SameElements(r, s, metric);
    SortedUnique(r, s, metric);
  }

  /** A member of `r` missing from `s` would leave room for a peer of `s` outside `r`, both nearer than the other. */
  lemma Outside(r: seq<Id>, s: seq<Id>, ids: seq<Id>, p: Id, metric: Id -> nat, count: int)
    requires IsNearest(r, ids, metric, count) && IsNearest(s, ids, metric, count)
    requires p in r
    ensures p in s
  {
    if exists q :: q in s && q !in r {
      var q :| q in s && q !in r;
      Crossed(r, s, ids, p, q, metric, count);
    } else if p !in s {
      Smaller(s, r, p, metric);
    }
  }

  lemma Crossed(r: seq<Id>, s: seq<Id>, ids: seq<Id>, p: Id, q: Id, metric: Id -> nat, count: int)
    requires IsNearest(r, ids, metric, count) && IsNearest(s, ids, metric, count)
    requires p in r && q in s && q !in r
    ensures p in s
  {
  }

  lemma Smaller(s: seq<Id>, r: seq<Id>, p: Id, metric: Id -> nat)
    requires Ascending(s, metric) && Ascending(r, metric)
    requires (forall q :: q in s ==> q in r) && p in r && p !in s
    ensures |s| < |r|
  {
    var a, b := set q | q in s, set q | q in r;
    DistinctSize(s);
    DistinctSize(r);
    assert a <= b - {p};
    SubsetSize(a, b - {p});
  }

  lemma SameElements(r: seq<Id>, s: seq<Id>, metric: Id -> nat)
    requires Ascending(r, metric) && Ascending(s, metric) && forall p :: p in r <==> p in s
    ensures multiset(r) == multiset(s)
  {
    forall p
      ensures multiset(r)[p] == multiset(s)[p]
    {
      AtMostOnce(r, p);
      AtMostOnce(s, p);
      assert p in r <==> p in multiset(r);
      assert p in s <==> p in multiset(s);
    }
  }

  /** The reference pins the list down: it is the front of the full sort. */
  lemma NearestIsFrontOfSort(r: seq<Id>, ids: seq<Id>, metric: Id -> nat, count: int)
    requires Apart(ids, metric)
    ensures IsNearest(r, ids, metric, count) <==> r == Take(SortIds(ids, metric), count)
  {
    FrontOfSortIsNearest(ids, metric, count);
    if IsNearest(r, ids, metric, count) {
      NearestUnique(r, Take(SortIds(ids, metric), count), ids, metric, count);
    }
  }
}
