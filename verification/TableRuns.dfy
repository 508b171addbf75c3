/**
 * Every run of `Update` and `Remove`: the table stays valid, buckets are ordered by
 * last activity, the evicted peer is the least active of its bucket, and the
 * callbacks keep a listener's set equal to the table.
 */
module TableRuns {
  import opened Collections
  import opened Keyspace
  import opened DistanceOrder
  import opened TableSpec

  ghost predicate History(local: Id, bucketsize: nat, h: seq<Op>) {
    && |local| >= 1
    && bucketsize >= 1
    && forall i :: 0 <= i < |h| ==> |h[i].peer| == |local|
  }

  /** The table after the operations of `h`; it satisfies the invariant whatever `h` is. */
  ghost function Run(local: Id, bucketsize: nat, h: seq<Op>): (t: Table)
    requires History(local, bucketsize, h)
    ensures Valid(t) && t.local == local && t.bucketsize == bucketsize
  {
    if h == [] then NewTable(local, bucketsize)
    else
      var n := |h| - 1;
      ApplyKeeps(Run(local, bucketsize, h[..n]), h[n]);
      Apply(Run(local, bucketsize, h[..n]), h[n]).table
  }

  /** What a listener holds that adds on `PeerAdded` and deletes on `PeerRemoved`. */
  ghost function Tracked(local: Id, bucketsize: nat, h: seq<Op>): set<Id>
    requires History(local, bucketsize, h)
  {
    if h == [] then {}
    else
      var n := |h| - 1;
      var e := Apply(Run(local, bucketsize, h[..n]), h[n]);
      Tracked(local, bucketsize, h[..n]) + (set p | p in e.added) - (set p | p in e.removed)
  }

  /** The position in `h` of the last `Update` of `p`, or -1. */
  ghost function LastUpdate(h: seq<Op>, p: Id): (k: int)
    ensures -1 <= k < |h|
    ensures k >= 0 ==> h[k].Update? && h[k].peer == p
    ensures forall i :: k < i < |h| ==> !(h[i].Update? && h[i].peer == p)
  {
    if h == [] then -1
    else if h[|h| - 1].Update? && h[|h| - 1].peer == p then |h| - 1
    else LastUpdate(h[..|h| - 1], p)
  }

  /** Most recently updated first. */
  ghost predicate ByActivity(s: seq<Id>, h: seq<Op>) {
    forall a, b :: 0 <= a < b < |s| ==> LastUpdate(h, s[a]) > LastUpdate(h, s[b])
  }

  ghost predicate AllByActivity(t: Table, h: seq<Op>) {
    forall i :: 0 <= i < |t.buckets| ==> ByActivity(t.buckets[i], h)
  }

  lemma LastUpdateExtend(h: seq<Op>, op: Op, q: Id)
    ensures LastUpdate(h + [op], q) == if op.Update? && op.peer == q then |h| else LastUpdate(h, q)
  {
    assert (h + [op])[..|h|] == h;
  }

  lemma ByActivityExtend(s: seq<Id>, h: seq<Op>, op: Op)
    requires ByActivity(s, h) && (op.Remove? || op.peer !in s)
    ensures ByActivity(s, h + [op])
  {
    forall a | 0 <= a < |s|
      ensures LastUpdate(h + [op], s[a]) == LastUpdate(h, s[a])
    {
      LastUpdateExtend(h, op, s[a]);
    }
  }

  lemma ByActivityFront(s: seq<Id>, h: seq<Op>, op: Op)
    requires ByActivity(s, h) && op.Update? && op.peer !in s
    ensures ByActivity([op.peer] + s, h + [op])
  {
    ByActivityExtend(s, h, op);
    LastUpdateExtend(h, op, op.peer);
    forall a | 0 <= a < |s|
      ensures LastUpdate(h + [op], s[a]) < |h|
    {
      LastUpdateExtend(h, op, s[a]);
    }
  }

  lemma ByActivityCons(s: seq<Id>, rest: seq<Id>, h: seq<Op>)
    requires s != [] && ByActivity(s, h) && ByActivity(rest, h)
    requires forall q :: q in rest ==> q in s[1..]
    ensures ByActivity([s[0]] + rest, h)
  {
    forall b | 0 <= b < |rest|
      ensures LastUpdate(h, s[0]) > LastUpdate(h, rest[b])
    {
      assert rest[b] in s[1..];
    }
  }

  lemma {:induction false} WithoutByActivity(s: seq<Id>, p: Id, h: seq<Op>)
    requires Distinct(s) && ByActivity(s, h)
    ensures ByActivity(Without(s, p), h)
  {
    if s != [] && s[0] != p {
      WithoutByActivity(s[1..], p, h);
      WithoutHolds(s[1..], p);
      ByActivityCons(s, Without(s[1..], p), h);
    }
  }

  lemma {:induction false} SplitByActivity(s: seq<Id>, cpl: nat, local: Id, h: seq<Op>)
    requires SameLength(s, local) && Distinct(s) && ByActivity(s, h)
    ensures ByActivity(Near(s, cpl, local), h) && ByActivity(Far(s, cpl, local), h)
  {
    if s != [] {
      SplitByActivity(s[1..], cpl, local, h);
      SplitHolds(s[1..], cpl, local);
      ByActivityCons(s, Near(s[1..], cpl, local), h);
      ByActivityCons(s, Far(s[1..], cpl, local), h);
    }
  }

  // ---------- one operation ----------

  /** `e` left `t`: it was less active than everything in its bucket, which is not empty. */
  ghost predicate LeastActive(t: Table, e: Id, h: seq<Op>) {
    && t.buckets != []
    && Fits(t, e)
    && e !in t.buckets[Home(t, e)]
    && t.buckets[Home(t, e)] != []
    && forall q :: q in t.buckets[Home(t, e)] ==> LastUpdate(h, q) > LastUpdate(h, e)
  }

  lemma PopLeastActive(t: Table, i: nat, h: seq<Op>)
    requires WellPlaced(t) && AllByActivity(t, h) && i < |t.buckets| - 1 && |t.buckets[i]| >= 2
    ensures var e := t.buckets[i][|t.buckets[i]| - 1];
            && AllByActivity(Pop(t, i), h)
            && LeastActive(Pop(t, i), e, h)
            && Peers(Pop(t, i)) == Peers(t) - {e}
  {
    var s, n := Pop(t, i), |t.buckets[i]| - 1;
    var e := t.buckets[i][n];
    PlacedIn(t, i, e);
    forall k | 0 <= k < |s.buckets|
      ensures ByActivity(s.buckets[k], h)
    {
      assert ByActivity(t.buckets[k], h);
    }
    assert ByActivity(t.buckets[i], h);
    forall q | q in Peers(t) && q != e
      ensures q in Peers(s)
    {
      var k :| 0 <= k < |t.buckets| && q in t.buckets[k];
      assert q in s.buckets[k];
    }
    forall q | q in Peers(s)
      ensures q in Peers(t) && q != e
    {
      var k :| 0 <= k < |s.buckets| && q in s.buckets[k];
      assert q in t.buckets[k];
      PlacedIn(t, k, q);
    }
  }

  lemma SplitLastActivity(t: Table, h: seq<Op>)
    requires Overfull(t) && AllByActivity(t, h)
    ensures AllByActivity(SplitLast(t), h)
  {
    var s, n := SplitLast(t), |t.buckets| - 1;
    var b := t.buckets[n];
    assert forall j :: 0 <= j < |b| ==> Placed(t, n, b[j]);
    assert ByActivity(b, h);
    SplitByActivity(b, n, t.local, h);
    forall k | 0 <= k < |s.buckets|
      ensures ByActivity(s.buckets[k], h)
    {
      if k < n { assert s.buckets[k] == t.buckets[k]; }
    }
  }

  lemma SplitLastPeers(t: Table)
    requires Overfull(t)
    ensures Peers(SplitLast(t)) == Peers(t)
  {
    var s, n := SplitLast(t), |t.buckets| - 1;
    var b := t.buckets[n];
    assert forall j :: 0 <= j < |b| ==> Placed(t, n, b[j]);
    SplitHolds(b, n, t.local);
    forall q | q in Peers(t)
      ensures q in Peers(s)
    {
      var k :| 0 <= k < |t.buckets| && q in t.buckets[k];
      assert q in s.buckets[k] || q in s.buckets[n + 1];
    }
    SplitLastNoMore(t);
  }

  lemma SplitLastNoMore(t: Table)
    requires Overfull(t)
    ensures Peers(SplitLast(t)) <= Peers(t)
  {
    var s, n := SplitLast(t), |t.buckets| - 1;
    var b := t.buckets[n];
    assert forall j :: 0 <= j < |b| ==> Placed(t, n, b[j]);
    SplitHolds(b, n, t.local);
    forall q | q in Peers(s)
      ensures q in Peers(t)
    {
      var k :| 0 <= k < |s.buckets| && q in s.buckets[k];
      assert q in t.buckets[if k <= n then k else n];
    }
  }

  lemma {:induction false} NextBucketActivity(t: Table, h: seq<Op>)
    requires Overfull(t) && AllByActivity(t, h)
    ensures var (r, e) := NextBucket(t);
            && AllByActivity(r, h)
            && (e == [] ==> Peers(r) == Peers(t))
            && (e != [] ==> LeastActive(r, e, h) && Peers(r) == Peers(t) - {e})
    decreases 8 * |t.local| + 1 - |t.buckets|
  {
    SplitLastKeeps(t);
    SplitLastActivity(t, h);
    SplitLastPeers(t);
    var n := |t.buckets| - 1;
    var s := SplitLast(t);
    if |s.buckets[n + 1]| > t.bucketsize {
      NextBucketActivity(s, h);
    } else if |s.buckets[n]| > t.bucketsize {
      PopLeastActive(s, n, h);
      PlacedIn(s, n, s.buckets[n][|s.buckets[n]| - 1]);
    }
  }

  /**
   * What an operation does to the table as a set, and whom it may evict: at most one
   * peer leaves, only for a new one that finds its bucket full, never the one just added,
   * always the least active of its bucket.
   */
  ghost predicate StepMeaning(t: Table, op: Op, h: seq<Op>)
    requires Valid(t) && Fits(t, op.peer)
  {
    var e := Apply(t, op);
    match op
    case Remove(p) => e.added == [] && e.removed == [p] && Peers(e.table) == Peers(t) - {p}
    case Update(p, slow) =>
      && e.added == (if p !in Peers(t) && !slow then [p] else [])
      && (e.removed != [] ==> e.added == [p] && |t.buckets[Home(t, p)]| == t.bucketsize)
      && (if |e.removed| == 1 && e.removed[0] != [] then
            && e.removed[0] != p
            && Peers(e.table) == Peers(t) + {p} - {e.removed[0]}
            && LeastActive(e.table, e.removed[0], h)
          else
            && (e.removed == [] || e.removed == [[]])
            && Peers(e.table) == if slow then Peers(t) else Peers(t) + {p})
  }

  lemma PeersAt(t: Table, p: Id)
    requires WellPlaced(t)
    ensures p in Peers(t) <==> Fits(t, p) && p in t.buckets[Home(t, p)]
  {
    if p in Peers(t) {
      var i :| 0 <= i < |t.buckets| && p in t.buckets[i];
      PlacedIn(t, i, p);
    }
  }

  lemma ReplacePeers(t: Table, i: nat, b: seq<Id>, more: set<Id>, less: set<Id>)
    requires WellPlaced(t) && i < |t.buckets|
    requires forall q :: q in b <==> (q in t.buckets[i] || q in more) && q !in less
    requires forall q :: q in less ==> Fits(t, q) && Home(t, q) == i
    ensures Peers(t.(buckets := t.buckets[i := b])) == Peers(t) + more - less
  {
    var s := t.(buckets := t.buckets[i := b]);
    forall q | q in Peers(s)
      ensures q in Peers(t) + more - less
    {
      var k :| 0 <= k < |s.buckets| && q in s.buckets[k];
      if k != i { PlacedIn(t, k, q); }
    }
    forall q | q in Peers(t) + more - less
      ensures q in Peers(s)
    {
      assert q in s.buckets[i] || q in Peers(t);
      if q !in b {
        var k :| 0 <= k < |t.buckets| && q in t.buckets[k];
        assert q in s.buckets[k];
      }
    }
  }

  lemma RemoveMeaning(t: Table, p: Id, h: seq<Op>)
    requires Valid(t) && Fits(t, p) && AllByActivity(t, h)
    ensures StepMeaning(t, Remove(p), h + [Remove(p)])
    ensures AllByActivity(RemoveSpec(t, p).table, h + [Remove(p)])
  {
    var op, i := Remove(p), Home(t, p);
    var b := Without(t.buckets[i], p);
    WithoutHolds(t.buckets[i], p);
    ReplacePeers(t, i, b, {}, {p});
    assert Peers(t) + {} - {p} == Peers(t) - {p};
    forall k | 0 <= k < |t.buckets|
      ensures ByActivity(RemoveSpec(t, p).table.buckets[k], h + [op])
    {
      assert ByActivity(t.buckets[k], h);
      if k == i { WithoutByActivity(t.buckets[i], p, h); }
      ByActivityExtend(if k == i then b else t.buckets[k], h, op);
    }
  }

  lemma NotElsewhere(t: Table, p: Id, k: nat)
    requires WellPlaced(t) && Fits(t, p) && k < |t.buckets| && k != Home(t, p)
    ensures p !in t.buckets[k]
  {
    if p in t.buckets[k] { PlacedIn(t, k, p); }
  }

  lemma FrontActivity(t: Table, i: nat, b: seq<Id>, h: seq<Op>, op: Op)
    requires WellPlaced(t) && op.Update? && Fits(t, op.peer) && i == Home(t, op.peer)
    requires AllByActivity(t, h) && ByActivity(b, h) && op.peer !in b
    ensures AllByActivity(t.(buckets := t.buckets[i := [op.peer] + b]), h + [op])
  {
    var s := t.(buckets := t.buckets[i := [op.peer] + b]);
    forall k | 0 <= k < |s.buckets|
      ensures ByActivity(s.buckets[k], h + [op])
    {
      if k == i {
        ByActivityFront(b, h, op);
      } else {
        NotElsewhere(t, op.peer, k);
        assert ByActivity(t.buckets[k], h);
        ByActivityExtend(t.buckets[k], h, op);
      }
    }
  }

  lemma UpdateMeaning(t: Table, p: Id, slow: bool, h: seq<Op>)
    requires Valid(t) && Fits(t, p) && AllByActivity(t, h)
    ensures StepMeaning(t, Update(p, slow), h + [Update(p, slow)])
    ensures AllByActivity(UpdateSpec(t, p, slow).table, h + [Update(p, slow)])
  {
    var op, i := Update(p, slow), Home(t, p);
    var h', b := h + [op], t.buckets[i];
    PeersAt(t, p);
    assert ByActivity(b, h);
    if p in b {
      WithoutHolds(b, p);
      WithoutByActivity(b, p, h);
      FrontActivity(t, i, Without(b, p), h, op);
      ReplacePeers(t, i, [p] + Without(b, p), {p}, {});
      assert Peers(t) + {p} - {} == Peers(t) == Peers(t) + {p};
    } else if slow {
      forall k | 0 <= k < |t.buckets|
        ensures ByActivity(t.buckets[k], h')
      {
        if k != i { NotElsewhere(t, p, k); }
        ByActivityExtend(t.buckets[k], h, op);
      }
    } else {
      PushMeaning(t, p, h, op);
    }
  }

  lemma PushMeaning(t: Table, p: Id, h: seq<Op>, op: Op)
    requires Valid(t) && Fits(t, p) && AllByActivity(t, h) && p !in Peers(t) && op == Update(p, false)
    ensures StepMeaning(t, op, h + [op])
    ensures AllByActivity(Apply(t, op).table, h + [op])
  {
    var i := Home(t, p);
    PeersAt(t, p);
    PushPeers(t, p, h, op);
    if |t.buckets[i]| == t.bucketsize {
      if i == |t.buckets| - 1 {
        PushSplits(t, p, h, op);
      } else {
        PushEvicts(t, p, h, op);
      }
    }
  }

  lemma PushSplits(t: Table, p: Id, h: seq<Op>, op: Op)
    requires Valid(t) && Fits(t, p) && AllByActivity(t, h) && p !in Peers(t) && op == Update(p, false)
    requires Home(t, p) == |t.buckets| - 1 && |t.buckets[Home(t, p)]| == t.bucketsize
    ensures StepMeaning(t, op, h + [op])
    ensures AllByActivity(Apply(t, op).table, h + [op])
  {
    var s := PushFront(t, p);
    PeersAt(t, p);
    PushFrontKeeps(t, p);
    PushPeers(t, p, h, op);
    NextBucketActivity(s, h + [op]);
    var (r, e) := NextBucket(s);
    assert Apply(t, op) == Effect(r, [p], [e]);
    if e != [] { NotJustAdded(r, e, h, op); }
  }

  lemma PushEvicts(t: Table, p: Id, h: seq<Op>, op: Op)
    requires Valid(t) && Fits(t, p) && AllByActivity(t, h) && p !in Peers(t) && op == Update(p, false)
    requires Home(t, p) < |t.buckets| - 1 && |t.buckets[Home(t, p)]| == t.bucketsize
    ensures StepMeaning(t, op, h + [op])
    ensures AllByActivity(Apply(t, op).table, h + [op])
  {
    var s, i := PushFront(t, p), Home(t, p);
    PeersAt(t, p);
    PushFrontKeeps(t, p);
    PushPeers(t, p, h, op);
    var e := s.buckets[i][|t.buckets[i]|];
    assert Apply(t, op) == Effect(Pop(s, i), [p], [e]);
    PopLeastActive(s, i, h + [op]);
    PlacedIn(s, i, e);
    EvictionMeaning(t, Pop(s, i), p, e, h, op);
  }

  lemma EvictionMeaning(t: Table, r: Table, p: Id, e: Id, h: seq<Op>, op: Op)
    requires Valid(t) && Fits(t, p) && p !in Peers(t) && op == Update(p, false)
    requires Apply(t, op) == Effect(r, [p], [e]) && e != [] && Peers(r) == Peers(t) + {p} - {e}
             && LeastActive(r, e, h + [op])
    ensures StepMeaning(t, op, h + [op])
  {
    NotJustAdded(r, e, h, op);
  }

  lemma PushPeers(t: Table, p: Id, h: seq<Op>, op: Op)
    requires Valid(t) && Fits(t, p) && AllByActivity(t, h) && p !in Peers(t) && op == Update(p, false)
    ensures AllByActivity(PushFront(t, p), h + [op])
    ensures Peers(PushFront(t, p)) == Peers(t) + {p}
  {
    var i := Home(t, p);
    PeersAt(t, p);
    assert ByActivity(t.buckets[i], h);
    FrontActivity(t, i, t.buckets[i], h, op);
    ReplacePeers(t, i, [p] + t.buckets[i], {p}, {});
    assert Peers(t) + {p} - {} == Peers(t) + {p};
  }

  lemma NotJustAdded(t: Table, e: Id, h: seq<Op>, op: Op)
    requires op.Update? && LeastActive(t, e, h + [op])
    ensures e != op.peer
  {
    var q := t.buckets[Home(t, e)][0];
    assert LastUpdate(h + [op], q) > LastUpdate(h + [op], e);
    LastUpdateExtend(h, op, op.peer);
  }

  lemma ApplyMeaning(t: Table, op: Op, h: seq<Op>)
    requires Valid(t) && Fits(t, op.peer) && AllByActivity(t, h)
    ensures StepMeaning(t, op, h + [op])
    ensures AllByActivity(Apply(t, op).table, h + [op])
  {
    match op
    case Update(p, slow) => UpdateMeaning(t, p, slow, h);
    case Remove(p) => RemoveMeaning(t, p, h);
  }

  // ---------- whole runs ----------

  /** After every run each bucket lists its peers from the most to the least recently updated. */
  lemma {:induction false} RunByActivity(local: Id, bucketsize: nat, h: seq<Op>)
    requires History(local, bucketsize, h)
    ensures AllByActivity(Run(local, bucketsize, h), h)
  {
    if h != [] {
      var n := |h| - 1;
      RunByActivity(local, bucketsize, h[..n]);
      ApplyMeaning(Run(local, bucketsize, h[..n]), h[n], h[..n]);
      assert h[..n] + [h[n]] == h;
    }
  }

  /** Every operation of every run has the meaning of `StepMeaning`. */
  lemma RunStepMeaning(local: Id, bucketsize: nat, h: seq<Op>, op: Op)
    requires History(local, bucketsize, h + [op])
    ensures History(local, bucketsize, h) && |op.peer| == |local|
    ensures StepMeaning(Run(local, bucketsize, h), op, h + [op])
  {
    assert forall i :: 0 <= i < |h| ==> (h + [op])[i] == h[i];
    assert (h + [op])[|h|] == op;
    RunByActivity(local, bucketsize, h);
    ApplyMeaning(Run(local, bucketsize, h), op, h);
  }

  /** The set a listener builds from the callbacks is exactly the set of peers in the table. */
  lemma {:induction false} TrackedIsTable(local: Id, bucketsize: nat, h: seq<Op>)
    requires History(local, bucketsize, h)
    ensures Tracked(local, bucketsize, h) == Peers(Run(local, bucketsize, h))
  {
    if h == [] {
      assert Peers(NewTable(local, bucketsize)) == {};
    } else {
      var n := |h| - 1;
      TrackedIsTable(local, bucketsize, h[..n]);
      assert h[..n] + [h[n]] == h;
      RunStepMeaning(local, bucketsize, h[..n], h[n]);
      CallbacksMatch(Run(local, bucketsize, h[..n]), h[n], h);
    }
  }

  lemma CallbacksMatch(t: Table, op: Op, h: seq<Op>)
    requires Valid(t) && Fits(t, op.peer) && StepMeaning(t, op, h)
    ensures var e := Apply(t, op);
            Peers(e.table) == Peers(t) + (set p | p in e.added) - (set p | p in e.removed)
  {
    var e := Apply(t, op);
    ApplyKeeps(t, op);
    assert [] !in Peers(e.table) by { PeersAt(e.table, []); }
    assert [] !in Peers(t) by { PeersAt(t, []); }
    assert op.Remove? ==> op.peer != [];
  }
}
