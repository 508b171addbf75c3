/**
 * `NearestPeers` reads the home bucket of the target and, when that is short, its two
 * neighbours. Here is exactly when that gives the globally nearest peers.
 */
module Nearest {
  import opened Collections
  import opened Keyspace
  import opened DistanceOrder
  import opened GroupOrder
  import opened TableSpec

  /** The peers of buckets `lo` to `hi - 1`, indices outside the table ignored. */
  function Segment(t: Table, lo: int, hi: int): seq<Id> {
    var n := |t.buckets|;
    var a := if lo < 0 then 0 else if lo > n then n else lo;
    var b := if hi < a then a else if hi > n then n else hi;
    Flat(t.buckets[a..b])
  }

  /** What `NearestPeers` collects before it sorts. */
  function Collected(t: Table, target: Id, count: int): seq<Id>
    requires t.buckets != [] && Fits(t, target)
  {
    var c := Home(t, target);
    if |t.buckets[c]| >= count then t.buckets[c]
    else t.buckets[c] + Segment(t, c - 1, c) + Segment(t, c + 1, c + 2)
  }

  function NearestSpec(t: Table, target: Id, count: int): seq<Id>
    requires t.buckets != [] && Fits(t, target)
  {
    Take(SortIds(Collected(t, target, count), XorMetric(target)), count)
  }

  /**
   * The condition, from bucket sizes and one bit of the target: the home bucket is
   * enough; or nothing lies beyond the right neighbour and what is read is enough or
   * everything; or the target turns away from us right after the home bucket, so the
   * right neighbour comes before everything beyond it, and it is enough.
   */
  predicate Covers(t: Table, target: Id, count: int)
    requires t.buckets != [] && Fits(t, target) && |t.buckets| <= 8 * |t.local| + 1
  {
    var c := Home(t, target);
    var home := |t.buckets[c]|;
    var left, right := |Segment(t, c - 1, c)|, |Segment(t, c + 1, c + 2)|;
    || home >= count
    || (&& Segment(t, c + 2, |t.buckets| + 1) == []
        && (Segment(t, -1, c - 1) == [] || home + left + right >= count))
    || (&& c + 2 < |t.buckets|
        && BitAt(target, c + 1) != BitAt(t.local, c + 1)
        && home + right >= count)
  }

  // ---------- segments ----------

  lemma {:induction false} FlatConcat(a: seq<seq<Id>>, b: seq<seq<Id>>)
    ensures Flat(a + b) == Flat(a) + Flat(b)
  {
    if a == [] {
      assert a + b == b;
    } else {
      FlatConcat(a[1..], b);
      assert (a + b)[1..] == a[1..] + b;
    }
  }

  lemma {:induction false} FlatHolds(bs: seq<seq<Id>>, p: Id)
    ensures p in Flat(bs) <==> exists i :: 0 <= i < |bs| && p in bs[i]
  {
    if bs != [] {
      FlatHolds(bs[1..], p);
      assert p in bs[0] ==> p in bs[0] && 0 < |bs|;
      assert forall i :: 0 <= i < |bs| - 1 ==> bs[1..][i] == bs[i + 1];
      if p in Flat(bs[1..]) {
        var i :| 0 <= i < |bs[1..]| && p in bs[1..][i];
        assert p in bs[i + 1];
      }
      if i :| 0 <= i < |bs| && p in bs[i] && p !in bs[0] {
        assert p in bs[1..][i - 1];
      }
    }
  }

  lemma SegmentHolds(t: Table, lo: int, hi: int, p: Id)
    ensures p in Segment(t, lo, hi) <==> exists i :: 0 <= i < |t.buckets| && lo <= i < hi && p in t.buckets[i]
  {
    var n := |t.buckets|;
    var a := if lo < 0 then 0 else if lo > n then n else lo;
    var b := if hi < a then a else if hi > n then n else hi;
    var bs := t.buckets[a..b];
    FlatHolds(bs, p);
    if p in Flat(bs) {
      var i :| 0 <= i < |bs| && p in bs[i];
      SliceAt(t.buckets, a, b, i);
    }
    if i :| 0 <= i < n && lo <= i < hi && p in t.buckets[i] {
      SliceAt(t.buckets, a, b, i - a);
    }
  }

  lemma SliceAt<T>(s: seq<T>, a: int, b: int, i: int)
    requires 0 <= a <= b <= |s| && 0 <= i < b - a
    ensures s[a..b][i] == s[a + i]
  {
  }

  lemma SegmentJoin(t: Table, lo: int, mid: int, hi: int)
    requires lo <= mid <= hi
    ensures Segment(t, lo, hi) == Segment(t, lo, mid) + Segment(t, mid, hi)
  {
    var n := |t.buckets|;
    var a := if lo < 0 then 0 else if lo > n then n else lo;
    var m := if mid < 0 then 0 else if mid > n then n else mid;
    var b := if hi < a then a else if hi > n then n else hi;
    assert t.buckets[a..b] == t.buckets[a..m] + t.buckets[m..b];
    FlatConcat(t.buckets[a..m], t.buckets[m..b]);
  }

  lemma DistinctConcat<T>(a: seq<T>, b: seq<T>)
    requires Distinct(a) && Distinct(b) && forall p :: p in a ==> p !in b
    ensures Distinct(a + b)
  {
    forall i, j | 0 <= i < j < |a + b|
      ensures (a + b)[i] != (a + b)[j]
    {
      if i < |a| <= j { assert a[i] in a && b[j - |a|] in b; }
    }
  }

  lemma SegmentApart(t: Table, hi: nat, p: Id)
    requires WellPlaced(t) && hi < |t.buckets| && p in Segment(t, 0, hi)
    ensures p !in t.buckets[hi]
  {
    SegmentHolds(t, 0, hi, p);
    var i :| 0 <= i < hi && p in t.buckets[i];
    PlacedIn(t, i, p);
    if p in t.buckets[hi] { PlacedIn(t, hi, p); }
  }

  lemma {:induction false} SegmentDistinct(t: Table, hi: nat)
    requires WellPlaced(t) && hi <= |t.buckets|
    ensures Distinct(Segment(t, 0, hi))
  {
    if hi > 0 {
      SegmentDistinct(t, hi - 1);
      SegmentJoin(t, 0, hi - 1, hi);
      OneBucket(t, hi - 1);
      assert Distinct(t.buckets[hi - 1]);
      var before := Segment(t, 0, hi - 1);
      forall p | p in before
        ensures p !in t.buckets[hi - 1]
      {
        SegmentApart(t, hi - 1, p);
      }
      DistinctConcat(before, t.buckets[hi - 1]);
    }
  }

  lemma OneBucket(t: Table, i: nat)
    requires i < |t.buckets|
    ensures Segment(t, i, i + 1) == t.buckets[i]
  {
    assert t.buckets[i..i + 1] == [t.buckets[i]];
    assert Flat([t.buckets[i]]) == t.buckets[i] + Flat([]);
  }

  lemma SegmentFits(t: Table, lo: int, hi: int)
    requires WellPlaced(t)
    ensures SameLength(Segment(t, lo, hi), t.local)
  {
    var s := Segment(t, lo, hi);
    forall j | 0 <= j < |s|
      ensures |s[j]| == |t.local|
    {
      SegmentHolds(t, lo, hi, s[j]);
      var i :| 0 <= i < |t.buckets| && lo <= i < hi && s[j] in t.buckets[i];
      PlacedIn(t, i, s[j]);
    }
  }

  // ---------- which bucket is nearer ----------

  /** Of two peers, the one that left our prefix first is the nearer iff the target leaves it there too. */
  lemma NearerSide(p: Id, q: Id, target: Id, local: Id)
    requires |p| == |q| == |target| == |local|
    requires CommonPrefixLen(p, local) < CommonPrefixLen(q, local)
    ensures CommonPrefixLen(p, local) < 8 * |local|
    ensures var m := CommonPrefixLen(p, local);
            && (Distance(p, target) < Distance(q, target) <==> BitAt(target, m) != BitAt(local, m))
            && Distance(p, target) != Distance(q, target)
  {
    CommonPrefixMeaning(p, local);
    CommonPrefixMeaning(q, local);
    var m := CommonPrefixLen(p, local);
    assert BitAt(q, m) == BitAt(local, m);
    forall i | 0 <= i < m
      ensures BitAt(p, i) == BitAt(q, i)
    {
      assert BitAt(p, i) == BitAt(local, i) && BitAt(q, i) == BitAt(local, i);
    }
    NearerByFirstDifference(p, q, target, m);
  }

  ghost predicate TurnsAway(t: Table, target: Id)
    requires t.buckets != [] && Fits(t, target) && |t.buckets| <= 8 * |t.local| + 1
  {
    var c := Home(t, target);
    c + 2 < |t.buckets| && BitAt(target, c + 1) != BitAt(t.local, c + 1)
  }

  /** Every peer of bucket `i` is nearer to the target than every peer of bucket `j`. */
  ghost predicate BucketNearer(t: Table, target: Id, i: int, j: int)
    requires t.buckets != [] && Fits(t, target) && |t.buckets| <= 8 * |t.local| + 1
  {
    var c := Home(t, target);
    || (j < c && j < i)
    || (i == c && j > c)
    || (i == c + 1 && j > c + 1 && TurnsAway(t, target))
    || (i > c + 1 && j == c + 1 && !TurnsAway(t, target))
  }

  lemma BucketNearerPeers(t: Table, target: Id, i: nat, j: nat, p: Id, q: Id)
    requires Valid(t) && Fits(t, target) && i < |t.buckets| && j < |t.buckets|
    requires p in t.buckets[i] && q in t.buckets[j] && BucketNearer(t, target, i, j)
    ensures Fits(t, p) && Fits(t, q) && Distance(p, target) < Distance(q, target)
  {
    var c: int, n: int := Home(t, target), |t.buckets|;
    PlacedIn(t, i, p);
    PlacedIn(t, j, q);
    CommonPrefixMeaning(target, t.local);
    if i < j {
      NearerSide(p, q, target, t.local);
    } else {
      NearerSide(q, p, target, t.local);
      assert j < c ==> BitAt(target, j) == BitAt(t.local, j);
    }
  }

  lemma SegmentsNearer(t: Table, target: Id, a: int, b: int, c: int, d: int)
    requires Valid(t) && Fits(t, target)
    requires forall i, j :: 0 <= i < |t.buckets| && a <= i < b && 0 <= j < |t.buckets| && c <= j < d
               ==> BucketNearer(t, target, i, j)
    ensures AllNearer(Segment(t, a, b), Segment(t, c, d), XorMetric(target))
  {
    var xs, ys := Segment(t, a, b), Segment(t, c, d);
    forall x, y | 0 <= x < |xs| && 0 <= y < |ys|
      ensures XorMetric(target)(xs[x]) < XorMetric(target)(ys[y])
    {
      SegmentHolds(t, a, b, xs[x]);
      SegmentHolds(t, c, d, ys[y]);
      var i :| 0 <= i < |t.buckets| && a <= i < b && xs[x] in t.buckets[i];
      var j :| 0 <= j < |t.buckets| && c <= j < d && ys[y] in t.buckets[j];
      BucketNearerPeers(t, target, i, j, xs[x], ys[y]);
    }
  }

  // ---------- the theorem ----------

  lemma SegmentAll(t: Table)
    ensures Segment(t, -1, |t.buckets| + 1) == Flat(t.buckets)
    ensures Segment(t, 0, |t.buckets|) == Flat(t.buckets)
  {
    assert t.buckets[0..|t.buckets|] == t.buckets;
  }

  /** The five groups of peers around bucket `c`. */
  lemma FiveGroups(t: Table, c: nat)
    requires c < |t.buckets|
    ensures Flat(t.buckets) == Segment(t, -1, c - 1) + Segment(t, c - 1, c) + t.buckets[c]
                               + Segment(t, c + 1, c + 2) + Segment(t, c + 2, |t.buckets| + 1)
    ensures Segment(t, c, c + 1) == t.buckets[c]
  {
    var n := |t.buckets|;
    SegmentAll(t);
    SegmentJoin(t, -1, c + 2, n + 1);
    SegmentJoin(t, -1, c + 1, c + 2);
    SegmentJoin(t, -1, c, c + 1);
    SegmentJoin(t, -1, c - 1, c);
    OneBucket(t, c);
  }

  lemma Groups(t: Table, target: Id)
    requires Valid(t) && Fits(t, target)
    ensures var c, n := Home(t, target), |t.buckets|;
            && Flat(t.buckets) == Segment(t, -1, c - 1) + Segment(t, c - 1, c) + t.buckets[c]
                                  + Segment(t, c + 1, c + 2) + Segment(t, c + 2, n + 1)
            && Segment(t, c, c + 1) == t.buckets[c]
    ensures Apart(Flat(t.buckets), XorMetric(target))
  {
    FiveGroups(t, Home(t, target));
    SegmentAll(t);
    SegmentDistinct(t, |t.buckets|);
    SegmentFits(t, 0, |t.buckets|);
    XorApart(Flat(t.buckets), target);
  }

  ghost function AroundHome(t: Table, target: Id): Around
    requires t.buckets != [] && Fits(t, target)
  {
    var c := Home(t, target);
    Around(Segment(t, -1, c - 1), Segment(t, c - 1, c), t.buckets[c],
           Segment(t, c + 1, c + 2), Segment(t, c + 2, |t.buckets| + 1))
  }

  lemma HomeFirst(t: Table, target: Id)
    requires Valid(t) && Fits(t, target)
    ensures var g, metric := AroundHome(t, target), XorMetric(target);
            && AllNearer(g.home, g.right, metric) && AllNearer(g.home, g.beyond, metric)
            && AllNearer(g.home, g.left, metric) && AllNearer(g.home, g.before, metric)
  {
    FiveGroups(t, Home(t, target));
    var c: int, n: int := Home(t, target), |t.buckets|;
    SegmentsNearer(t, target, c, c + 1, c + 1, c + 2);
    SegmentsNearer(t, target, c, c + 1, c + 2, n + 1);
    SegmentsNearer(t, target, c, c + 1, c - 1, c);
    SegmentsNearer(t, target, c, c + 1, -1, c - 1);
  }

  lemma LeftLast(t: Table, target: Id)
    requires Valid(t) && Fits(t, target)
    ensures var g, metric := AroundHome(t, target), XorMetric(target);
            && AllNearer(g.right, g.left, metric) && AllNearer(g.right, g.before, metric)
            && AllNearer(g.beyond, g.left, metric) && AllNearer(g.beyond, g.before, metric)
            && AllNearer(g.left, g.before, metric)
  {
    var c: int, n: int := Home(t, target), |t.buckets|;
    SegmentsNearer(t, target, c + 1, c + 2, c - 1, c);
    SegmentsNearer(t, target, c + 1, c + 2, -1, c - 1);
    SegmentsNearer(t, target, c + 2, n + 1, c - 1, c);
    SegmentsNearer(t, target, c + 2, n + 1, -1, c - 1);
    SegmentsNearer(t, target, c - 1, c, -1, c - 1);
  }

  lemma AroundHomeInOrder(t: Table, target: Id)
    requires Valid(t) && Fits(t, target)
    ensures InOrder(AroundHome(t, target), XorMetric(target), TurnsAway(t, target))
  {
    HomeFirst(t, target);
    LeftLast(t, target);
    RightAndBeyond(t, target);
  }

  lemma RightAndBeyond(t: Table, target: Id)
    requires Valid(t) && Fits(t, target)
    ensures var g, metric := AroundHome(t, target), XorMetric(target);
            if TurnsAway(t, target) then AllNearer(g.right, g.beyond, metric) else AllNearer(g.beyond, g.right, metric)
  {
    var c: int, n: int := Home(t, target), |t.buckets|;
    if TurnsAway(t, target) {
      SegmentsNearer(t, target, c + 1, c + 2, c + 2, n + 1);
    } else {
      SegmentsNearer(t, target, c + 2, n + 1, c + 1, c + 2);
    }
  }

  lemma EnoughIffCovers(t: Table, target: Id, count: int)
    requires Valid(t) && Fits(t, target)
    ensures Enough(AroundHome(t, target), count, TurnsAway(t, target)) <==> Covers(t, target, count)
  {
    if |t.buckets| <= Home(t, target) + 2 { BeyondEmpty(t, Home(t, target)); }
  }

  lemma BeyondEmpty(t: Table, c: nat)
    requires c < |t.buckets| <= c + 2
    ensures Segment(t, c + 2, |t.buckets| + 1) == []
  {
  }

  /** `NearestPeers` lists exactly the globally nearest peers iff `Covers` holds. */
  lemma NearestExact(t: Table, target: Id, count: int)
    requires Valid(t) && Fits(t, target)
    ensures IsNearest(NearestSpec(t, target, count), Flat(t.buckets), XorMetric(target), count)
            <==> Covers(t, target, count)
  {
    GroupsAll(t, target);
    AroundHomeInOrder(t, target);
    EnoughIffCovers(t, target, count);
    ReadIsNearest(AroundHome(t, target), XorMetric(target), TurnsAway(t, target), count);
  }

  lemma GroupsAll(t: Table, target: Id)
    requires Valid(t) && Fits(t, target)
    ensures AroundHome(t, target).All() == Flat(t.buckets) && Apart(Flat(t.buckets), XorMetric(target))
  {
    Groups(t, target);
  }

  lemma ReadIsNearest(g: Around, metric: Id -> nat, away: bool, count: int)
    requires InOrder(g, metric, away) && Apart(g.All(), metric)
    ensures var read := if |g.home| >= count then g.home else g.home + g.left + g.right;
            IsNearest(Take(SortIds(read, metric), count), g.All(), metric, count) <==> Enough(g, count, away)
  {
    var read := if |g.home| >= count then g.home else g.home + g.left + g.right;
    AroundExact(g, metric, away, count);
    NearestIsFrontOfSort(Take(SortIds(read, metric), count), g.All(), metric, count);
  }

  /** A held id is at distance 0 in its home bucket: the first result is the id iff the table holds it. */
  lemma FirstIsTarget(t: Table, id: Id)
    requires Valid(t) && Fits(t, id)
    ensures id in Peers(t) <==> NearestSpec(t, id, 1) == [id]
  {
    if id in Peers(t) {
      var i :| 0 <= i < |t.buckets| && id in t.buckets[i];
      PlacedIn(t, i, id);
      HeldIsFirst(t, id, i);
    }
    if NearestSpec(t, id, 1) == [id] { FoundIsHeld(t, id); }
  }

  lemma FoundIsHeld(t: Table, id: Id)
    requires Valid(t) && Fits(t, id) && NearestSpec(t, id, 1) == [id]
    ensures id in Peers(t)
  {
    var c: int, read := Home(t, id), Collected(t, id, 1);
    SortIdsPermutes(read, XorMetric(id));
    assert SortIds(read, XorMetric(id))[0] == id && id in read;
    SegmentHolds(t, c - 1, c, id);
    SegmentHolds(t, c + 1, c + 2, id);
  }

  lemma HeldIsFirst(t: Table, id: Id, i: nat)
    requires Valid(t) && i < |t.buckets| && id in t.buckets[i]
    ensures Take(SortIds(t.buckets[i], XorMetric(id)), 1) == [id]
  {
    var b, metric := t.buckets[i], XorMetric(id);
    PlacedIn(t, i, id);
    OneBucket(t, i);
    SegmentFits(t, i, i + 1);
    assert SameLength(b, id) && Distinct(b);
    XorApart(b, id);
    SortIdsAscends(b, metric);
    SortIdsPermutes(b, metric);
    ZeroFirst(SortIds(b, metric), id);
  }

  lemma ZeroFirst(s: seq<Id>, id: Id)
    requires Ascending(s, XorMetric(id)) && id in s
    ensures Take(s, 1) == [id]
  {
    assert XorMetric(id)(id) == 0 by { ZeroDistance(id); }
    var k :| 0 <= k < |s| && s[k] == id;
  }
}
