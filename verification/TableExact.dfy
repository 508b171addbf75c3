/**
 * Exactly what an update does to the table: when it adds, when it evicts and whom, and how
 * many buckets there are afterwards. Peers, number of buckets and activity determine a valid
 * table, so nothing is left open.
 */
module TableExact {
  import opened Collections
  import opened Keyspace
  import opened DistanceOrder
  import opened GroupOrder
  import opened TableSpec
  import opened TableRuns

  /** How many bits an id shares with us. */
  function Shared(local: Id): Id -> nat {
    (q: Id) => if |q| == |local| then CommonPrefixLen(q, local) else 0
  }

  /** All of the ids share exactly `m` bits with us. */
  ghost predicate AllShare(s: seq<Id>, shared: Id -> nat, m: nat) {
    forall q :: q in s ==> shared(q) == m
  }

  /** All of the ids share `m` bits with us, and one of them no more. */
  ghost predicate LeastShared(s: seq<Id>, shared: Id -> nat, m: nat) {
    (forall q :: q in s ==> shared(q) >= m) && (exists q :: q in s && shared(q) == m)
  }

  // ---------- the recursive split ----------

  /** A bucket in two: those that share at most `n` bits, and the others, both in order. */
  ghost predicate Parts(b: seq<Id>, near: seq<Id>, far: seq<Id>, shared: Id -> nat, n: nat) {
    && (forall q :: q in near <==> q in b && shared(q) <= n)
    && (forall q :: q in far <==> q in b && shared(q) > n)
    && |near| + |far| == |b|
    && (far == [] ==> near == b) && (near == [] ==> far == b)
  }

  lemma {:induction false} OnePart(s: seq<Id>, n: nat, local: Id)
    requires SameLength(s, local)
    ensures Far(s, n, local) == [] ==> Near(s, n, local) == s
    ensures Near(s, n, local) == [] ==> Far(s, n, local) == s
  {
    if s != [] { OnePart(s[1..], n, local); }
  }

  lemma PartsOf(b: seq<Id>, n: nat, local: Id, shared: Id -> nat)
    requires SameLength(b, local) && Distinct(b)
    requires forall q :: q in b ==> |q| == |local| && shared(q) == CommonPrefixLen(q, local)
    ensures Parts(b, Near(b, n, local), Far(b, n, local), shared, n)
  {
    SplitHolds(b, n, local);
    OnePart(b, n, local);
  }

  lemma LastShares(t: Table)
    requires Overfull(t)
    ensures var n := |t.buckets| - 1;
            && SameLength(t.buckets[n], t.local)
            && forall q :: q in t.buckets[n] ==>
                 |q| == |t.local| && Shared(t.local)(q) == CommonPrefixLen(q, t.local) >= n
  {
    var n := |t.buckets| - 1;
    forall q | q in t.buckets[n] ensures |q| == |t.local| && CommonPrefixLen(q, t.local) >= n {
      PlacedIn(t, n, q);
    }
  }

  lemma SplitParts(t: Table)
    requires Overfull(t)
    ensures var n := |t.buckets| - 1;
            var b, s := t.buckets[n], SplitLast(t);
            && Parts(b, s.buckets[n], s.buckets[n + 1], Shared(t.local), n)
            && forall q :: q in b ==> Shared(t.local)(q) >= n
  {
    LastShares(t);
    var n := |t.buckets| - 1;
    SplitBuckets(t);
    PartsOf(t.buckets[n], n, t.local, Shared(t.local));
  }

  lemma SplitBuckets(t: Table)
    requires Overfull(t) && SameLength(t.buckets[|t.buckets| - 1], t.local)
    ensures var n := |t.buckets| - 1;
            var b, s := t.buckets[n], SplitLast(t);
            s.buckets[n] == Near(b, n, t.local) && s.buckets[n + 1] == Far(b, n, t.local)
  {
  }

  lemma PartsDeeper(b: seq<Id>, near: seq<Id>, far: seq<Id>, shared: Id -> nat, n: nat, k: nat)
    requires Parts(b, near, far, shared, n) && |b| == k + 1 && |far| > k
    ensures far == b
  {
  }

  lemma PartsHere(b: seq<Id>, near: seq<Id>, far: seq<Id>, shared: Id -> nat, n: nat, k: nat)
    requires Parts(b, near, far, shared, n) && |b| == k + 1 && |far| <= k && forall q :: q in b ==> shared(q) >= n
    ensures LeastShared(b, shared, n)
    ensures |near| > k <==> AllShare(b, shared, n)
    ensures |near| > k ==> near == b
  {
    assert near[0] in near;
    if far != [] { assert far[0] in far; }
  }

  /** The split goes down to where the first of the peers leaves our prefix; it evicts iff they all leave it there. */
  ghost predicate SplitExactly(b: seq<Id>, r: (Table, Id), shared: Id -> nat)
    requires b != []
  {
    && |r.0.buckets| >= 2 && LeastShared(b, shared, |r.0.buckets| - 2)
    && r.1 == if AllShare(b, shared, |r.0.buckets| - 2) then b[|b| - 1] else []
  }

  lemma {:induction false} NextBucketExact(t: Table)
    requires Overfull(t)
    ensures SplitExactly(t.buckets[|t.buckets| - 1], NextBucket(t), Shared(t.local))
    decreases 8 * |t.local| + 1 - |t.buckets|
  {
    var s, n := SplitLast(t), |t.buckets| - 1;
    var b := t.buckets[n];
    NextBucketStep(t);
    SplitParts(t);
    if |s.buckets[n + 1]| > t.bucketsize {
      PartsDeeper(b, s.buckets[n], s.buckets[n + 1], Shared(t.local), n, t.bucketsize);
      NextBucketExact(s);
      assert NextBucket(t) == NextBucket(s) && s.local == t.local && s.buckets[|s.buckets| - 1] == b;
    } else {
      PartsHere(b, s.buckets[n], s.buckets[n + 1], Shared(t.local), n, t.bucketsize);
    }
  }

  // ---------- one update ----------

  /**
   * A peer that is held, or a slow one, changes no membership. A new one is added; nobody leaves
   * while its bucket has room. In a full bucket the last peer leaves exactly when all of
   * the bucket leave our prefix where the new one does; otherwise the last bucket is split,
   * down to where the first of them leaves our prefix.
   */
  ghost predicate UpdateExact(t: Table, p: Id, slow: bool)
    requires Valid(t) && Fits(t, p)
  {
    var e, home := UpdateSpec(t, p, slow), t.buckets[Home(t, p)];
    if p in Peers(t) || slow then
      e.added == [] && e.removed == [] && Peers(e.table) == Peers(t) && |e.table.buckets| == |t.buckets|
    else if |home| < t.bucketsize then
      e.added == [p] && e.removed == [] && Peers(e.table) == Peers(t) + {p} && |e.table.buckets| == |t.buckets|
    else
      home != [] && FullExact(t, p, e, home, Shared(t.local))
  }

  ghost predicate FullExact(t: Table, p: Id, e: Effect, home: seq<Id>, shared: Id -> nat)
    requires home != [] && t.buckets != [] && Fits(t, p)
  {
    && e.added == [p]
    && (if AllShare(home, shared, shared(p))
        then e.removed == [home[|home| - 1]] && Peers(e.table) == Peers(t) + {p} - {home[|home| - 1]}
        else e.removed == [[]] && Peers(e.table) == Peers(t) + {p})
    && (if Home(t, p) == |t.buckets| - 1
        then |e.table.buckets| >= 2 && LeastShared([p] + home, shared, |e.table.buckets| - 2)
        else |e.table.buckets| == |t.buckets|)
  }

  lemma ShareFront(p: Id, home: seq<Id>, shared: Id -> nat, m: nat)
    requires home != [] && LeastShared([p] + home, shared, m)
    ensures AllShare([p] + home, shared, m) <==> AllShare(home, shared, shared(p))
    ensures ([p] + home)[|home|] == home[|home| - 1]
  {
    var s := [p] + home;
    assert p in s && forall q :: q in s <==> q == p || q in home;
    assert home[0] in home;
  }

  lemma SplitEffect(t: Table, p: Id)
    requires Valid(t) && Fits(t, p) && p !in t.buckets[Home(t, p)]
    requires Home(t, p) == |t.buckets| - 1 && |t.buckets[Home(t, p)]| == t.bucketsize
    ensures var e, home, shared := UpdateSpec(t, p, false), t.buckets[Home(t, p)], Shared(t.local);
            && |e.table.buckets| >= 2 && LeastShared([p] + home, shared, |e.table.buckets| - 2)
            && e.removed == [if AllShare(home, shared, shared(p)) then home[|home| - 1] else []]
  {
    var home, s := t.buckets[Home(t, p)], PushFront(t, p);
    PushOutcome(t, p);
    var r := NextBucket(s);
    assert UpdateSpec(t, p, false) == Effect(r.0, [p], [r.1]) && s.local == t.local;
    assert s.buckets[|s.buckets| - 1] == [p] + home;
    NextBucketExact(s);
    FrontExact(p, home, r, Shared(t.local));
  }

  lemma FrontExact(p: Id, home: seq<Id>, r: (Table, Id), shared: Id -> nat)
    requires home != [] && SplitExactly([p] + home, r, shared)
    ensures |r.0.buckets| >= 2 && LeastShared([p] + home, shared, |r.0.buckets| - 2)
    ensures r.1 == if AllShare(home, shared, shared(p)) then home[|home| - 1] else []
  {
    ShareFront(p, home, shared, |r.0.buckets| - 2);
  }

  /** In a bucket that is not the last one all share the same bits. */
  lemma InnerEffect(t: Table, p: Id)
    requires Valid(t) && Fits(t, p) && p !in t.buckets[Home(t, p)]
    requires Home(t, p) < |t.buckets| - 1 && |t.buckets[Home(t, p)]| == t.bucketsize
    ensures var e, home, shared := UpdateSpec(t, p, false), t.buckets[Home(t, p)], Shared(t.local);
            && |e.table.buckets| == |t.buckets| && e.removed == [home[|home| - 1]]
            && AllShare(home, shared, shared(p))
  {
    PushOutcome(t, p);
    var i := Home(t, p);
    var home := t.buckets[i];
    assert ([p] + home)[|home|] == home[|home| - 1];
    forall q | q in home ensures Shared(t.local)(q) == i {
      PlacedIn(t, i, q);
    }
  }

  lemma UpdateIsExact(t: Table, p: Id, slow: bool, h: seq<Op>)
    requires Valid(t) && Fits(t, p) && AllByActivity(t, h)
    ensures UpdateExact(t, p, slow)
  {
    var i := Home(t, p);
    PeersAt(t, p);
    UpdateMeaning(t, p, slow, h);
    if p !in Peers(t) && !slow {
      PushOutcome(t, p);
      if |t.buckets[i]| == t.bucketsize { FullIsExact(t, p, h + [Update(p, slow)]); }
    }
  }

  lemma FullIsExact(t: Table, p: Id, h: seq<Op>)
    requires Valid(t) && Fits(t, p) && p !in Peers(t) && p !in t.buckets[Home(t, p)]
    requires |t.buckets[Home(t, p)]| == t.bucketsize && StepMeaning(t, Update(p, false), h)
    ensures FullExact(t, p, UpdateSpec(t, p, false), t.buckets[Home(t, p)], Shared(t.local))
  {
    var i := Home(t, p);
    LastIsId(t, i);
    if i == |t.buckets| - 1 { SplitEffect(t, p); } else { InnerEffect(t, p); }
  }

  lemma LastIsId(t: Table, i: nat)
    requires Valid(t) && i < |t.buckets| && t.buckets[i] != []
    ensures t.buckets[i][|t.buckets[i]| - 1] != []
  {
    PlacedIn(t, i, t.buckets[i][|t.buckets[i]| - 1]);
  }

  // ---------- nothing else is left open ----------

  ghost function Age(h: seq<Op>, q: Id): nat {
    |h| - LastUpdate(h, q)
  }

  lemma BucketDetermined(t: Table, s: Table, h: seq<Op>, i: nat)
    requires Valid(t) && Valid(s) && t.local == s.local && |t.buckets| == |s.buckets| && Peers(t) == Peers(s)
    requires AllByActivity(t, h) && AllByActivity(s, h) && i < |t.buckets|
    ensures t.buckets[i] == s.buckets[i]
  {
    var a, b := t.buckets[i], s.buckets[i];
    var age := (q: Id) => Age(h, q);
    assert ByActivity(a, h) && ByActivity(b, h);
    SameHome(t, s, i);
    SameElements(a, b, age);
    SortedUnique(a, b, age);
  }

  lemma SameHome(t: Table, s: Table, i: nat)
    requires Valid(t) && Valid(s) && t.local == s.local && |t.buckets| == |s.buckets| && Peers(t) == Peers(s)
    requires i < |t.buckets|
    ensures forall q :: q in t.buckets[i] <==> q in s.buckets[i]
  {
    forall q ensures q in t.buckets[i] <==> q in s.buckets[i] {
      PeersAt(t, q);
      PeersAt(s, q);
      if q in t.buckets[i] { PlacedIn(t, i, q); }
      if q in s.buckets[i] { PlacedIn(s, i, q); }
    }
  }

  /** Two valid tables with the same peers, as many buckets and the same activity are the same. */
  lemma TableDetermined(t: Table, s: Table, h: seq<Op>)
    requires Valid(t) && Valid(s) && t.local == s.local && t.bucketsize == s.bucketsize
    requires |t.buckets| == |s.buckets| && Peers(t) == Peers(s) && AllByActivity(t, h) && AllByActivity(s, h)
    ensures t == s
  {
    forall i | 0 <= i < |t.buckets| ensures t.buckets[i] == s.buckets[i] {
      BucketDetermined(t, s, h, i);
    }
  }

  /** In every run every update is exact, and a removal keeps the number of buckets. */
  lemma RunUpdateExact(local: Id, bucketsize: nat, h: seq<Op>, op: Op)
    requires History(local, bucketsize, h) && |op.peer| == |local|
    ensures var t := Run(local, bucketsize, h);
            match op
            case Update(p, slow) => UpdateExact(t, p, slow)
            case Remove(_) => |Apply(t, op).table.buckets| == |t.buckets|
  {
    RunByActivity(local, bucketsize, h);
    if op.Update? { UpdateIsExact(Run(local, bucketsize, h), op.peer, op.slow, h); }
  }
}
