/**
 * The routing table of kad_table.go on values: what each operation does to the
 * lists of the buckets, and which callbacks it fires. The class in
 * RoutingTable.dfy is proved to follow these functions.
 */
module TableSpec {
  import opened Collections
  import opened Keyspace
  import opened DistanceOrder

  datatype Table = Table(local: Id, bucketsize: nat, buckets: seq<seq<Id>>)

  /** A table after an operation, with the ids passed to `PeerAdded` and `PeerRemoved`. */
  datatype Effect = Effect(table: Table, added: seq<Id>, removed: seq<Id>)

  datatype Op = Update(peer: Id, slow: bool) | Remove(peer: Id)

  function NewTable(local: Id, bucketsize: nat): Table {
    Table(local, bucketsize, [[]])
  }

  predicate Fits(t: Table, p: Id) {
    |p| == |t.local|
  }

  /** The index of the bucket an id belongs in: its common prefix with us, or the last bucket. */
  function Home(t: Table, p: Id): (i: nat)
    requires t.buckets != [] && Fits(t, p)
    ensures i < |t.buckets|
  {
    var cpl := CommonPrefixLen(p, t.local);
    if cpl >= |t.buckets| then |t.buckets| - 1 else cpl
  }

  // ---------- lists ----------

  function Without(s: seq<Id>, p: Id): seq<Id> {
    if s == [] then [] else if s[0] == p then s[1..] else [s[0]] + Without(s[1..], p)
  }

  /** Peers of a bucket whose common prefix with `local` is at most `cpl`, in order. */
  function Near(s: seq<Id>, cpl: nat, local: Id): seq<Id>
    requires SameLength(s, local)
  {
    if s == [] then []
    else if CommonPrefixLen(s[0], local) > cpl then Near(s[1..], cpl, local)
    else [s[0]] + Near(s[1..], cpl, local)
  }

  /** The other peers of that bucket, in order: they go to the new bucket. */
  function Far(s: seq<Id>, cpl: nat, local: Id): seq<Id>
    requires SameLength(s, local)
  {
    if s == [] then []
    else if CommonPrefixLen(s[0], local) > cpl then [s[0]] + Far(s[1..], cpl, local)
    else Far(s[1..], cpl, local)
  }

  // ---------- the invariant ----------

  ghost predicate Placed(t: Table, i: nat, p: Id)
    requires i < |t.buckets|
  {
    && Fits(t, p)
    && CommonPrefixLen(p, t.local) >= i
    && (i < |t.buckets| - 1 ==> CommonPrefixLen(p, t.local) == i)
  }

  ghost predicate WellPlaced(t: Table) {
    && t.buckets != []
    && (forall i, j :: 0 <= i < |t.buckets| && 0 <= j < |t.buckets[i]| ==> Placed(t, i, t.buckets[i][j]))
    && (forall i :: 0 <= i < |t.buckets| ==> Distinct(t.buckets[i]))
  }

  ghost predicate Valid(t: Table) {
    && |t.local| >= 1
    && t.bucketsize >= 1
    && |t.buckets| <= 8 * |t.local| + 1
    && WellPlaced(t)
    && (forall i :: 0 <= i < |t.buckets| ==> |t.buckets[i]| <= t.bucketsize)
  }

  /** Valid but for one peer too many in the last bucket. */
  ghost predicate Overfull(t: Table) {
    && |t.local| >= 1
    && t.bucketsize >= 1
    && |t.buckets| <= 8 * |t.local| + 1
    && WellPlaced(t)
    && (forall i :: 0 <= i < |t.buckets| - 1 ==> |t.buckets[i]| <= t.bucketsize)
    && |t.buckets[|t.buckets| - 1]| == t.bucketsize + 1
  }

  function Peers(t: Table): set<Id> {
    set i, p | 0 <= i < |t.buckets| && p in t.buckets[i] :: p
  }

  // ---------- operations ----------

  /** One split of the last bucket. */
  ghost function SplitLast(t: Table): Table
    requires WellPlaced(t)
  {
    var n := |t.buckets| - 1;
    var b := t.buckets[n];
    t.(buckets := t.buckets[..n] + [Near(b, n, t.local), Far(b, n, t.local)])
  }

  /** `nextBucket`: split the last bucket until no bucket can still be split; returns the evicted peer. */
  ghost function NextBucket(t: Table): (r: (Table, Id))
    requires Overfull(t)
    decreases 8 * |t.local| + 1 - |t.buckets|
  {
    SplitLastKeeps(t);
    var n := |t.buckets| - 1;
    var s := SplitLast(t);
    if |s.buckets[n + 1]| > t.bucketsize then NextBucket(s)
    else if |s.buckets[n]| > t.bucketsize then
      (s.(buckets := s.buckets[n := s.buckets[n][..|s.buckets[n]| - 1]]), s.buckets[n][|s.buckets[n]| - 1])
    else (s, [])
  }

  ghost function PushFront(t: Table, p: Id): Table
    requires t.buckets != [] && Fits(t, p)
  {
    var i := Home(t, p);
    t.(buckets := t.buckets[i := [p] + t.buckets[i]])
  }

  ghost function UpdateSpec(t: Table, p: Id, slow: bool): Effect
    requires Valid(t) && Fits(t, p)
  {
    var i := Home(t, p);
    var b := t.buckets[i];
    if p in b then Effect(t.(buckets := t.buckets[i := [p] + Without(b, p)]), [], [])
    else if slow then Effect(t, [], [])
    else
      var s := PushFront(t, p);
      PushFrontKeeps(t, p);
      if |s.buckets[i]| <= t.bucketsize then Effect(s, [p], [])
      else if i == |t.buckets| - 1 then
        var (r, gone) := NextBucket(s);
        Effect(r, [p], [gone])
      else Effect(s.(buckets := s.buckets[i := s.buckets[i][..|b|]]), [p], [s.buckets[i][|b|]])
  }

  ghost function RemoveSpec(t: Table, p: Id): Effect
    requires t.buckets != [] && Fits(t, p)
  {
    var i := Home(t, p);
    Effect(t.(buckets := t.buckets[i := Without(t.buckets[i], p)]), [], [p])
  }

  ghost function Apply(t: Table, op: Op): Effect
    requires Valid(t) && Fits(t, op.peer)
  {
    match op
    case Update(p, slow) => UpdateSpec(t, p, slow)
    case Remove(p) => RemoveSpec(t, p)
  }

  // ---------- what the lists hold ----------

  lemma {:induction false} WithoutHolds(s: seq<Id>, p: Id)
    requires Distinct(s)
    ensures forall q :: q in Without(s, p) <==> q in s && q != p
    ensures Distinct(Without(s, p))
    ensures |Without(s, p)| == if p in s then |s| - 1 else |s|
  {
    if s != [] {
      assert s == [s[0]] + s[1..];
      assert s[0] !in s[1..];
      if s[0] != p { WithoutHolds(s[1..], p); }
    }
  }

  lemma {:induction false} SplitHolds(s: seq<Id>, cpl: nat, local: Id)
    requires SameLength(s, local) && Distinct(s)
    ensures forall q :: q in Near(s, cpl, local) <==> q in s && CommonPrefixLen(q, local) <= cpl
    ensures forall q :: q in Far(s, cpl, local) <==> q in s && CommonPrefixLen(q, local) > cpl
    ensures Distinct(Near(s, cpl, local)) && Distinct(Far(s, cpl, local))
    ensures |Near(s, cpl, local)| + |Far(s, cpl, local)| == |s|
  {
    if s != [] {
      assert s == [s[0]] + s[1..];
      assert s[0] !in s[1..];
      SplitHolds(s[1..], cpl, local);
    }
  }

  // ---------- each operation keeps the invariant ----------

  lemma PushFrontKeeps(t: Table, p: Id)
    requires Valid(t) && Fits(t, p) && p !in t.buckets[Home(t, p)]
    ensures WellPlaced(PushFront(t, p))
    ensures var i := Home(t, p);
            |t.buckets[i]| == t.bucketsize && i == |t.buckets| - 1 ==> Overfull(PushFront(t, p))
  {
    var s := PushFront(t, p);
    forall i, j | 0 <= i < |s.buckets| && 0 <= j < |s.buckets[i]|
      ensures Placed(s, i, s.buckets[i][j])
    {
      if i == Home(t, p) && j > 0 {
        assert Placed(t, i, t.buckets[i][j - 1]);
      } else if i != Home(t, p) {
        assert Placed(t, i, t.buckets[i][j]);
      }
    }
  }

  /** A bucket for the full prefix can hold only ourselves, so an overfull one is never that. */
  lemma OverfullSplits(t: Table)
    requires Overfull(t)
    ensures |t.buckets| <= 8 * |t.local|
  {
    var n := |t.buckets| - 1;
    var p, q := t.buckets[n][0], t.buckets[n][1];
    assert Placed(t, n, p) && Placed(t, n, q);
    CommonPrefixMeaning(p, t.local);
    CommonPrefixMeaning(q, t.local);
  }

  lemma SplitLastKeeps(t: Table)
    requires Overfull(t)
    ensures WellPlaced(SplitLast(t)) && |SplitLast(t).buckets| == |t.buckets| + 1 <= 8 * |t.local| + 1
    ensures var s, n := SplitLast(t), |t.buckets| - 1;
            && |s.buckets[n]| + |s.buckets[n + 1]| == t.bucketsize + 1
            && (|s.buckets[n + 1]| > t.bucketsize ==> Overfull(s))
  {
    OverfullSplits(t);
    var s, n := SplitLast(t), |t.buckets| - 1;
    var b := t.buckets[n];
    assert forall j :: 0 <= j < |b| ==> Placed(t, n, b[j]);
    SplitHolds(b, n, t.local);
    forall i, j | 0 <= i < |s.buckets| && 0 <= j < |s.buckets[i]|
      ensures Placed(s, i, s.buckets[i][j])
    {
      var p := s.buckets[i][j];
      if i < n {
        assert Placed(t, i, t.buckets[i][j]);
      } else {
        assert p in s.buckets[i];
      }
    }
    SplitLastDistinct(t);
  }

  lemma SplitLastDistinct(t: Table)
    requires Overfull(t)
    ensures var s := SplitLast(t); forall i :: 0 <= i < |s.buckets| ==> Distinct(s.buckets[i])
  {
    var s, n := SplitLast(t), |t.buckets| - 1;
    SplitHolds(t.buckets[n], n, t.local);
    forall i | 0 <= i < |s.buckets|
      ensures Distinct(s.buckets[i])
    {
      if i < n { assert s.buckets[i] == t.buckets[i]; }
    }
  }

  lemma NextBucketStep(t: Table)
    requires Overfull(t)
    ensures var s, n := SplitLast(t), |t.buckets| - 1;
            && |s.buckets| == |t.buckets| + 1 <= 8 * |t.local| + 1
            && (|s.buckets[n + 1]| > t.bucketsize ==> Overfull(s))
            && NextBucket(t) ==
               if |s.buckets[n + 1]| > t.bucketsize then NextBucket(s)
               else if |s.buckets[n]| > t.bucketsize then (Pop(s, n), s.buckets[n][|s.buckets[n]| - 1])
               else (s, [])
  {
    SplitLastKeeps(t);
  }

  lemma {:induction false} NextBucketKeeps(t: Table)
    requires Overfull(t)
    ensures Valid(NextBucket(t).0)
    ensures NextBucket(t).0.local == t.local && NextBucket(t).0.bucketsize == t.bucketsize
    decreases 8 * |t.local| + 1 - |t.buckets|
  {
    SplitLastKeeps(t);
    var n := |t.buckets| - 1;
    var s := SplitLast(t);
    if |s.buckets[n + 1]| > t.bucketsize {
      NextBucketKeeps(s);
    } else if |s.buckets[n]| > t.bucketsize {
      PopKeeps(s, n);
    }
  }

  ghost function Pop(t: Table, i: nat): Table
    requires i < |t.buckets| && t.buckets[i] != []
  {
    t.(buckets := t.buckets[i := t.buckets[i][..|t.buckets[i]| - 1]])
  }

  lemma PopKeeps(t: Table, i: nat)
    requires WellPlaced(t) && i < |t.buckets| && t.buckets[i] != []
    ensures WellPlaced(Pop(t, i))
  {
    var s := Pop(t, i);
    forall k, j | 0 <= k < |s.buckets| && 0 <= j < |s.buckets[k]|
      ensures Placed(s, k, s.buckets[k][j])
    {
      assert Placed(t, k, t.buckets[k][j]);
    }
    forall k | 0 <= k < |s.buckets|
      ensures Distinct(s.buckets[k])
    {
      assert Distinct(t.buckets[k]);
    }
  }

  lemma ReplaceKeeps(t: Table, i: nat, b: seq<Id>)
    requires Valid(t) && i < |t.buckets| && Distinct(b) && |b| <= t.bucketsize
    requires forall p :: p in b ==> Placed(t, i, p)
    ensures Valid(t.(buckets := t.buckets[i := b]))
  {
    var s := t.(buckets := t.buckets[i := b]);
    forall k, j | 0 <= k < |s.buckets| && 0 <= j < |s.buckets[k]|
      ensures Placed(s, k, s.buckets[k][j])
    {
      if k != i { assert Placed(t, k, t.buckets[k][j]); } else { assert b[j] in b; }
    }
  }

  lemma PlacedIn(t: Table, i: nat, p: Id)
    requires WellPlaced(t) && i < |t.buckets| && p in t.buckets[i]
    ensures Placed(t, i, p) && Home(t, p) == i
  {
    var j :| 0 <= j < |t.buckets[i]| && t.buckets[i][j] == p;
  }

  lemma RemoveKeeps(t: Table, p: Id)
    requires Valid(t) && Fits(t, p)
    ensures Valid(RemoveSpec(t, p).table)
  {
    var i := Home(t, p);
    WithoutHolds(t.buckets[i], p);
    forall q | q in Without(t.buckets[i], p)
      ensures Placed(t, i, q)
    {
      PlacedIn(t, i, q);
    }
    ReplaceKeeps(t, i, Without(t.buckets[i], p));
  }

  lemma UpdateKeeps(t: Table, p: Id, slow: bool)
    requires Valid(t) && Fits(t, p)
    ensures Valid(UpdateSpec(t, p, slow).table)
  {
    var i := Home(t, p);
    var b := t.buckets[i];
    if p in b {
      WithoutHolds(b, p);
      var moved := [p] + Without(b, p);
      forall q | q in moved
        ensures Placed(t, i, q)
      {
        PlacedIn(t, i, q);
      }
      ReplaceKeeps(t, i, moved);
    } else if !slow {
      var s := PushFront(t, p);
      PushFrontKeeps(t, p);
      if |b| < t.bucketsize {
      } else if i == |t.buckets| - 1 {
        NextBucketKeeps(s);
      } else {
        PopKeeps(s, i);
      }
    }
  }

  /** The three ways a new peer goes in. */
  lemma PushOutcome(t: Table, p: Id)
    requires Valid(t) && Fits(t, p) && p !in t.buckets[Home(t, p)]
    ensures var s, i := PushFront(t, p), Home(t, p);
            var full := |s.buckets[i]| > t.bucketsize;
            && (full && i == |t.buckets| - 1 ==> Overfull(s))
            && UpdateSpec(t, p, false) ==
               if !full then Effect(s, [p], [])
               else if i == |t.buckets| - 1 then Effect(NextBucket(s).0, [p], [NextBucket(s).1])
               else Effect(Pop(s, i), [p], [s.buckets[i][|s.buckets[i]| - 1]])
  {
    PushFrontKeeps(t, p);
  }

  lemma ApplyKeeps(t: Table, op: Op)
    requires Valid(t) && Fits(t, op.peer)
    ensures Valid(Apply(t, op).table)
    ensures Apply(t, op).table.local == t.local && Apply(t, op).table.bucketsize == t.bucketsize
  {
    match op
    case Update(p, slow) =>
      UpdateKeeps(t, p, slow);
      SameOwner(t, p, slow);
    case Remove(p) => RemoveKeeps(t, p);
  }

  lemma SameOwner(t: Table, p: Id, slow: bool)
    requires Valid(t) && Fits(t, p)
    ensures UpdateSpec(t, p, slow).table.local == t.local
    ensures UpdateSpec(t, p, slow).table.bucketsize == t.bucketsize
  {
    var i := Home(t, p);
    if p !in t.buckets[i] && !slow {
      PushFrontKeeps(t, p);
      if |t.buckets[i]| == t.bucketsize && i == |t.buckets| - 1 {
        NextBucketKeeps(PushFront(t, p));
      }
    }
  }
}
