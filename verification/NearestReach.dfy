/**
 * What the search of the routing table returns whether or not it is exact: the nearest of the
 * peers within reach, which are told by how many bits they share with us.
 */
module NearestReach {
  import opened Collections
  import opened Keyspace
  import opened DistanceOrder
  import opened GroupOrder
  import opened TableSpec
  import opened TableRuns
  import opened Nearest

  /** Reference on sets: the `count` ids nearest by `metric`, nearest first. */
  ghost predicate IsNearestOf(r: seq<Id>, ids: set<Id>, metric: Id -> nat, count: int) {
    && |r| == (if count <= 0 then 0 else if count <= |ids| then count else |ids|)
    && Ascending(r, metric)
    && (forall p :: p in r ==> p in ids)
    && (forall p, q :: p in ids && p !in r && q in r ==> metric(q) < metric(p))
  }

  /** Where an id goes among `n` buckets: the bits it shares with us, the last bucket taking all the rest. */
  function Slot(p: Id, local: Id, n: nat): int {
    if |p| == |local| && CommonPrefixLen(p, local) < n then CommonPrefixLen(p, local) else n - 1
  }

  ghost function Within(t: Table, target: Id, d: nat): set<Id> {
    var c := Slot(target, t.local, |t.buckets|);
    set p | p in Peers(t) && c - d <= Slot(p, t.local, |t.buckets|) <= c + d
  }

  /** The peers of the target's own slot if they are enough, else those at most one slot away. */
  ghost function Reach(t: Table, target: Id, count: int): set<Id> {
    if |Within(t, target, 0)| >= count then Within(t, target, 0) else Within(t, target, 1)
  }

  lemma SlotIsHome(t: Table, p: Id)
    requires t.buckets != [] && Fits(t, p)
    ensures Slot(p, t.local, |t.buckets|) == Home(t, p)
  {
  }

  lemma HeldInSlot(t: Table, i: nat, p: Id)
    requires Valid(t) && i < |t.buckets| && p in t.buckets[i]
    ensures p in Peers(t) && Slot(p, t.local, |t.buckets|) == i
  {
    PlacedIn(t, i, p);
    SlotIsHome(t, p);
  }

  lemma SegmentIsWithin(t: Table, target: Id, lo: int, hi: int, p: Id)
    requires Valid(t) && Fits(t, target)
    ensures p in Segment(t, lo, hi) <==> p in Peers(t) && lo <= Slot(p, t.local, |t.buckets|) < hi
  {
    SegmentHolds(t, lo, hi, p);
    if i :| 0 <= i < |t.buckets| && lo <= i < hi && p in t.buckets[i] { HeldInSlot(t, i, p); }
    if p in Peers(t) {
      var i :| 0 <= i < |t.buckets| && p in t.buckets[i];
      HeldInSlot(t, i, p);
    }
  }

  lemma HomeIsWithin(t: Table, target: Id)
    requires Valid(t) && Fits(t, target)
    ensures (set p | p in t.buckets[Home(t, target)]) == Within(t, target, 0)
    ensures |t.buckets[Home(t, target)]| == |Within(t, target, 0)|
  {
    var c := Home(t, target);
    SlotIsHome(t, target);
    OneBucket(t, c);
    forall p ensures p in t.buckets[c] <==> p in Within(t, target, 0) {
      SegmentIsWithin(t, target, c, c + 1, p);
    }
    DistinctSize(t.buckets[c]);
  }

  lemma CollectedIsReach(t: Table, target: Id, count: int)
    requires Valid(t) && Fits(t, target)
    ensures forall p :: p in Collected(t, target, count) <==> p in Reach(t, target, count)
  {
    HomeIsWithin(t, target);
    SlotIsHome(t, target);
    var c: int := Home(t, target);
    OneBucket(t, c);
    forall p ensures p in Collected(t, target, count) <==> p in Reach(t, target, count) {
      SegmentIsWithin(t, target, c - 1, c, p);
      SegmentIsWithin(t, target, c, c + 1, p);
      SegmentIsWithin(t, target, c + 1, c + 2, p);
    }
  }

  lemma CollectedApart(t: Table, target: Id, count: int)
    requires Valid(t) && Fits(t, target)
    ensures Apart(Collected(t, target, count), XorMetric(target))
  {
    Groups(t, target);
    var c: int, n: int := Home(t, target), |t.buckets|;
    ApartMiddle(Segment(t, -1, c - 1), Segment(t, c - 1, c), t.buckets[c], Segment(t, c + 1, c + 2),
                Segment(t, c + 2, n + 1), XorMetric(target));
  }

  lemma ApartMiddle(a: seq<Id>, b: seq<Id>, c: seq<Id>, d: seq<Id>, e: seq<Id>, metric: Id -> nat)
    requires Apart(a + b + c + d + e, metric)
    ensures Apart(c, metric) && Apart(c + b + d, metric)
  {
    ApartParts(a + b + c + d, e, metric);
    assert a + b + c + d == a + (b + c + d);
    ApartParts(a, b + c + d, metric);
    assert multiset(b + c + d) == multiset(c + b + d);
    ApartPermuted(b + c + d, c + b + d, metric);
    ApartParts(c + b, d, metric);
    ApartParts(c, b, metric);
  }

  /** Whatever the table, the target and the count, the search gives exactly the nearest of the peers within reach. */
  lemma NearestInReach(t: Table, target: Id, count: int)
    requires Valid(t) && Fits(t, target)
    ensures IsNearestOf(NearestSpec(t, target, count), Reach(t, target, count), XorMetric(target), count)
  {
    var read := Collected(t, target, count);
    CollectedApart(t, target, count);
    CollectedIsReach(t, target, count);
    ApartDistinct(read, XorMetric(target));
    FrontOfSortIsNearest(read, XorMetric(target), count);
    ListsSize(read, Reach(t, target, count));
  }
}
