/**
 * The mutable routing table: kad_bucket.go and kad_table.go as classes. A bucket's linked
 * list is a sequence field edited while a position walks along it; locks are left out
 * because every operation holds the table lock from start to end.
 */
module RoutingTable {
  import opened Collections
  import opened Keyspace
  import opened DistanceOrder
  import opened GroupOrder
  import opened TableSpec
  import opened TableRuns
  import opened Nearest
  import opened NearestReach

  method ComputeCommonPrefixLen(a: Id, b: Id) returns (n: nat)
    requires |a| <= |b|
    ensures n == CommonPrefixLen(a, b)
  {
    var x := Xor(a, b);
    n := ZeroPrefixLen(x);
  }

  lemma Cut(list: seq<Id>, near: seq<Id>, was: seq<Id>, k: nat)
    requires k < |was| && list == near + was[k..]
    ensures list[|near|] == was[k]
    ensures list[..|near|] + list[|near| + 1..] == near + was[k + 1..]
    ensures list == near + [was[k]] + was[k + 1..]
  {
  }

  lemma SplitNext(s: seq<Id>, k: nat, cpl: nat, target: Id)
    requires k < |s| && SameLength(s, target)
    ensures var far := CommonPrefixLen(s[k], target) > cpl;
            && Near(s[..k + 1], cpl, target) == Near(s[..k], cpl, target) + (if far then [] else [s[k]])
            && Far(s[..k + 1], cpl, target) == Far(s[..k], cpl, target) + (if far then [s[k]] else [])
  {
    assert s[..k + 1] == s[..k] + [s[k]];
    SplitSnoc(s[..k], s[k], cpl, target);
  }

  lemma {:induction false} SplitSnoc(s: seq<Id>, x: Id, cpl: nat, target: Id)
    requires SameLength(s, target) && |x| == |target|
    ensures SameLength(s + [x], target)
    ensures var far := CommonPrefixLen(x, target) > cpl;
            && Near(s + [x], cpl, target) == Near(s, cpl, target) + (if far then [] else [x])
            && Far(s + [x], cpl, target) == Far(s, cpl, target) + (if far then [x] else [])
  {
    if s == [] {
      assert s + [x] == [x] && [x][1..] == [];
    } else {
      SplitSnoc(s[1..], x, cpl, target);
      assert (s + [x])[1..] == s[1..] + [x];
    }
  }

  lemma {:induction false} WithoutAt(s: seq<Id>, e: nat)
    requires Distinct(s) && e < |s|
    ensures Without(s, s[e]) == s[..e] + s[e + 1..]
  {
    if e > 0 {
      WithoutAt(s[1..], e - 1);
      assert s[1..][..e - 1] == s[1..e] && s[..e] == [s[0]] + s[1..e];
    }
  }

  class Bucket {
    var list: seq<Id>

    constructor (ids: seq<Id>)
      ensures list == ids
    {
      list := ids;
    }

    method Has(id: Id) returns (found: bool)
      ensures found <==> id in list
    {
      for e := 0 to |list|
        invariant id !in list[..e]
      {
        if list[e] == id { return true; }
      }
      return false;
    }

    /** `list.Remove` detaches the element, so the walk stops after the first removal. */
    method Remove(id: Id)
      modifies this
      ensures list == Without(old(list), id)
    {
      var e := 0;
      while e < |list|
        invariant 0 <= e <= |list| && list == old(list)
        invariant Without(list, id) == list[..e] + Without(list[e..], id)
      {
        if list[e] == id {
          list := list[..e] + list[e + 1..];
          return;
        }
        e := e + 1;
      }
    }

    /** Moving an element to the front sends the walk back there; it ends as no id is in the list twice. */
    method MoveToFront(id: Id)
      requires Distinct(list)
      modifies this
      ensures list == if id in old(list) then [id] + Without(old(list), id) else old(list)
    {
      ghost var moved := false;
      var e := 0;
      while e < |list|
        invariant 0 <= e <= |list|
        invariant !moved ==> list == old(list) && id !in list[..e]
        invariant moved ==> e >= 1 && id in old(list) && list == [id] + Without(old(list), id)
        invariant moved ==> forall k :: 1 <= k < |list| ==> list[k] != id
        decreases if moved then 0 else 1, |list| - e
      {
        if list[e] == id {
          WithoutAt(list, e);
          WithoutHolds(list, id);
          list := [id] + (list[..e] + list[e + 1..]);
          assert list[1..] == Without(old(list), id);
          moved := true;
          e := 0;
        }
        e := e + 1;
      }
    }

    method PushFront(p: Id)
      modifies this
      ensures list == [p] + old(list)
    {
      list := [p] + list;
    }

    method PopBack() returns (last: Id)
      requires list != []
      modifies this
      ensures last == old(list)[|old(list)| - 1] && list == old(list)[..|old(list)| - 1]
    {
      last := list[|list| - 1];
      list := list[..|list| - 1];
    }

    /** Peers sharing more than `cpl` bits with `target` move to the new bucket, in order. */
    method Split(cpl: nat, target: Id) returns (newBucket: Bucket)
      requires SameLength(list, target)
      modifies this
      ensures fresh(newBucket)
      ensures list == Near(old(list), cpl, target) && newBucket.list == Far(old(list), cpl, target)
    {
      newBucket := new Bucket([]);
      ghost var was, k, near := list, 0, [];
      var e := 0;
      while e < |list|
        invariant fresh(newBucket)
        invariant 0 <= k <= |was| && e == |near| && list == near + was[k..]
        invariant near == Near(was[..k], cpl, target) && newBucket.list == Far(was[..k], cpl, target)
        decreases |was| - k
      {
        SplitNext(was, k, cpl, target);
        Cut(list, near, was, k);
        var peerCPL := ComputeCommonPrefixLen(list[e], target);
        if peerCPL > cpl {
          newBucket.list := newBucket.list + [list[e]];
          list := list[..e] + list[e + 1..];
        } else {
          e, near := e + 1, near + [was[k]];
        }
        k := k + 1;
      }
      assert was[..k] == was;
    }
  }

  class RoutingTable {
    const local: Id
    const bucketsize: nat
    var buckets: seq<Bucket>
    // the ids a listener holds that follows PeerAdded and PeerRemoved
    var tracked: set<Id>
    // what happened to this table
    ghost var history: seq<Op>

    ghost function Lists(bs: seq<Bucket>): seq<seq<Id>>
      reads bs
    {
      seq(|bs|, i requires 0 <= i < |bs| reads bs => bs[i].list)
    }

    ghost function Value(): Table
      reads this, buckets
    {
      Table(local, bucketsize, Lists(buckets))
    }

    /** The table is what its history makes of it, so every lemma about runs applies. */
    ghost predicate IsValid()
      reads this, buckets
    {
      && History(local, bucketsize, history)
      && Distinct(buckets)
      && Value() == Run(local, bucketsize, history)
      && tracked == Tracked(local, bucketsize, history)
    }

    constructor (bucketsize: nat, local: Id)
      requires bucketsize >= 1 && |local| >= 1
      ensures IsValid() && history == [] && fresh(buckets)
      ensures this.local == local && this.bucketsize == bucketsize
    {
      this.local := local;
      this.bucketsize := bucketsize;
      var b := new Bucket([]);
      buckets := [b];
      tracked := {};
      history := [];
    }

    /** The bucket an id belongs in. */
    method HomeIndex(p: Id) returns (i: nat)
      requires buckets != [] && |p| == |local|
      ensures i == Home(Value(), p)
    {
      i := ComputeCommonPrefixLen(p, local);
      if i >= |buckets| {
        i := |buckets| - 1;
      }
    }

    method PeerAdded(p: Id)
      modifies this`tracked
      ensures tracked == old(tracked) + {p}
    {
      tracked := tracked + {p};
    }

    method PeerRemoved(p: Id)
      modifies this`tracked
      ensures tracked == old(tracked) - {p}
    {
      tracked := tracked - {p};
    }

    /** Adds a peer or moves it to the front of its bucket; splits or evicts when the bucket is full. */
    method Update(p: Id, slow: bool)
      requires IsValid() && |p| == |local|
      modifies this, buckets
      ensures IsValid() && history == old(history) + [Op.Update(p, slow)]
      ensures Value() == UpdateSpec(old(Value()), p, slow).table
      ensures forall b :: b in buckets ==> b in old(buckets) || fresh(b)
    {
      RunExtend(local, bucketsize, history, Op.Update(p, slow));
      history := history + [Op.Update(p, slow)];
      UpdateBucket(p, slow);
    }

    method UpdateBucket(p: Id, slow: bool)
      requires Distinct(buckets) && Valid(Value()) && |p| == |local|
      modifies this`buckets, this`tracked, buckets
      ensures Distinct(buckets) && forall b :: b in buckets ==> b in old(buckets) || fresh(b)
      ensures var e := UpdateSpec(old(Value()), p, slow);
              && Value() == e.table
              && tracked == old(tracked) + (set q | q in e.added) - (set q | q in e.removed)
    {
      ghost var before := Value();
      var bucketID := HomeIndex(p);
      var bucket := buckets[bucketID];
      assert bucket.list == before.buckets[bucketID];
      var has := bucket.Has(p);
      if has {
        bucket.MoveToFront(p);
        assert Value().buckets == before.buckets[bucketID := bucket.list];
      } else if !slow {
        ghost var removed := AddToBucket(p, bucketID);
      }
    }

    method AddToBucket(p: Id, bucketID: nat) returns (ghost removed: seq<Id>)
      requires Distinct(buckets) && Valid(Value()) && |p| == |local|
      requires bucketID == Home(Value(), p) && p !in Value().buckets[bucketID]
      modifies this`buckets, this`tracked, buckets
      ensures Distinct(buckets) && forall b :: b in buckets ==> b in old(buckets) || fresh(b)
      ensures UpdateSpec(old(Value()), p, false) == Effect(Value(), [p], removed)
      ensures tracked == old(tracked) + {p} - (set q | q in removed)
    {
      PushOutcome(Value(), p);
      ghost var s, effect := TableSpec.PushFront(Value(), p), UpdateSpec(Value(), p, false);
      PushTo(p, bucketID);
      assert Value() == s && buckets[bucketID].list == s.buckets[bucketID];
      PeerAdded(p);
      removed := effect.removed;
      if |buckets[bucketID].list| > bucketsize {
        Overflow(bucketID, effect);
      }
    }

    method Overflow(bucketID: nat, ghost effect: Effect)
      requires Distinct(buckets) && bucketID < |buckets| && buckets[bucketID].list != []
      requires var t := Value();
               if bucketID == |buckets| - 1
               then Overfull(t) && effect.table == TableSpec.NextBucket(t).0
                    && effect.removed == [TableSpec.NextBucket(t).1]
               else effect.table == Pop(t, bucketID)
                    && effect.removed == [t.buckets[bucketID][|t.buckets[bucketID]| - 1]]
      modifies this`buckets, this`tracked, buckets
      ensures Distinct(buckets) && forall b :: b in buckets ==> b in old(buckets) || fresh(b)
      ensures Value() == effect.table && tracked == old(tracked) - (set q | q in effect.removed)
    {
      var gone := MakeRoom(bucketID);
      PeerRemoved(gone);
      assert effect.removed == [gone];
    }

    method PushTo(p: Id, bucketID: nat)
      requires Distinct(buckets) && buckets != [] && |p| == |local| && bucketID == Home(Value(), p)
      modifies buckets
      ensures Value() == TableSpec.PushFront(old(Value()), p)
    {
      ghost var before := Value();
      buckets[bucketID].PushFront(p);
      assert Value().buckets == before.buckets[bucketID := [p] + before.buckets[bucketID]];
    }

    /** The last bucket is split, any other loses its least active peer. */
    method MakeRoom(bucketID: nat) returns (gone: Id)
      requires Distinct(buckets) && bucketID < |buckets| && buckets[bucketID].list != []
      requires bucketID == |buckets| - 1 ==> Overfull(Value())
      modifies this`buckets, buckets
      ensures Distinct(buckets) && forall b :: b in buckets ==> b in old(buckets) || fresh(b)
      ensures var t := old(Value());
              if bucketID == |t.buckets| - 1 then (Value(), gone) == TableSpec.NextBucket(t)
              else Value() == Pop(t, bucketID) && gone == t.buckets[bucketID][|t.buckets[bucketID]| - 1]
    {
      if bucketID == |buckets| - 1 {
        gone := NextBucket();
      } else {
        gone := PopFrom(bucketID);
      }
    }

    method PopFrom(i: nat) returns (gone: Id)
      requires Distinct(buckets) && i < |buckets| && buckets[i].list != []
      modifies buckets
      ensures var b := old(Value()).buckets[i];
              Value() == Pop(old(Value()), i) && gone == b[|b| - 1]
    {
      ghost var before := Value();
      gone := buckets[i].PopBack();
      assert Value().buckets == before.buckets[i := buckets[i].list];
    }

    /** Splits the last bucket, again and again while the new one is overfull; returns the evicted peer. */
    method NextBucket() returns (gone: Id)
      requires Distinct(buckets) && Overfull(Value())
      modifies this`buckets, buckets
      ensures Distinct(buckets) && forall b :: b in buckets ==> b in old(buckets) || fresh(b)
      ensures (Value(), gone) == TableSpec.NextBucket(old(Value()))
      decreases 8 * |local| + 1 - |buckets|, 1
    {
      ghost var t := Value();
      ghost var r, s := TableSpec.NextBucket(t), SplitLast(t);
      NextBucketStep(t);
      var n := |buckets| - 1;
      SplitLastBucket();
      assert Value() == s && |buckets| == n + 2;
      assert buckets[n + 1].list == s.buckets[n + 1];
      gone := AfterSplit(n, r);
    }

    /** What follows a split of bucket `n`. */
    method AfterSplit(n: nat, ghost r: (Table, Id)) returns (gone: Id)
      requires Distinct(buckets) && |buckets| == n + 2 <= 8 * |local| + 1
      requires |buckets[n + 1].list| > bucketsize ==> Overfull(Value())
      requires var s := Value();
               r == if |s.buckets[n + 1]| > bucketsize then TableSpec.NextBucket(s)
                    else if |s.buckets[n]| > bucketsize then (Pop(s, n), s.buckets[n][|s.buckets[n]| - 1])
                    else (s, [])
      modifies this`buckets, buckets
      ensures Distinct(buckets) && forall b :: b in buckets ==> b in old(buckets) || fresh(b)
      ensures (Value(), gone) == r
      decreases 8 * |local| + 1 - |buckets|, 2
    {
      if |buckets[n + 1].list| > bucketsize {
        gone := NextBucket();
      } else if |buckets[n].list| > bucketsize {
        gone := PopFrom(n);
      } else {
        gone := [];
      }
    }

    method SplitLastBucket()
      requires Distinct(buckets) && Overfull(Value())
      modifies this`buckets, buckets
      ensures |buckets| == |old(buckets)| + 1 && buckets[..|buckets| - 1] == old(buckets)
      ensures fresh(buckets[|buckets| - 1]) && Distinct(buckets)
      ensures Value() == SplitLast(old(Value()))
    {
      ghost var before := Value();
      var n := |buckets| - 1;
      var bucket := buckets[n];
      assert bucket.list == before.buckets[n];
      assert SameLength(bucket.list, local) by {
        assert forall j :: 0 <= j < |bucket.list| ==> Placed(before, n, before.buckets[n][j]);
      }
      var newBucket := bucket.Split(n, local);
      buckets := buckets + [newBucket];
      assert Value().buckets == SplitLast(before).buckets;
    }

    method Remove(p: Id)
      requires IsValid() && |p| == |local|
      modifies this, buckets
      ensures IsValid() && history == old(history) + [Op.Remove(p)]
      ensures Value() == RemoveSpec(old(Value()), p).table && buckets == old(buckets)
    {
      RunExtend(local, bucketsize, history, Op.Remove(p));
      history := history + [Op.Remove(p)];
      RemoveFromBucket(p);
      PeerRemoved(p);
    }

    method RemoveFromBucket(p: Id)
      requires Distinct(buckets) && buckets != [] && |p| == |local|
      modifies buckets
      ensures Value() == RemoveSpec(old(Value()), p).table
    {
      ghost var before := Value();
      var bucketID := HomeIndex(p);
      buckets[bucketID].Remove(p);
      assert Value().buckets == before.buckets[bucketID := Without(before.buckets[bucketID], p)];
    }

    method Size() returns (total: nat)
      requires IsValid()
      ensures total == |Flat(Value().buckets)| == |Peers(Value())|
    {
      total := 0;
      for i := 0 to |buckets|
        invariant total == |Flat(Lists(buckets)[..i])|
      {
        total := total + |buckets[i].list|;
        FlatNext(Lists(buckets), i);
      }
      assert Lists(buckets)[..|buckets|] == Lists(buckets);
      FlatSet(Value());
    }

    method ListPeers() returns (peers: seq<Id>)
      requires IsValid()
      ensures peers == Flat(Value().buckets) && Distinct(peers)
      ensures (set p | p in peers) == Peers(Value()) == tracked
    {
      peers := [];
      for i := 0 to |buckets|
        invariant peers == Flat(Lists(buckets)[..i])
      {
        peers := peers + buckets[i].list;
        FlatNext(Lists(buckets), i);
      }
      assert Lists(buckets)[..|buckets|] == Lists(buckets);
      FlatSet(Value());
      TrackedIsTable(local, bucketsize, history);
    }

    /** The nearest of the peers within reach; what a full sort of the table would give exactly when `Covers` holds. */
    method NearestPeers(hash: Id, count: int) returns (out: seq<Id>)
      requires IsValid() && |hash| == |local|
      ensures out == NearestSpec(Value(), hash, count)
      ensures IsNearestOf(out, Reach(Value(), hash, count), XorMetric(hash), count)
      ensures IsNearest(out, Flat(Value().buckets), XorMetric(hash), count) <==> Covers(Value(), hash, count)
    {
      var hashArr := CollectPeers(hash, count);
      var sorted := SortArr(hashArr);
      out := Front(sorted, count);
      NearestExact(Value(), hash, count);
      NearestInReach(Value(), hash, count);
    }

    method CollectPeers(hash: Id, count: int) returns (hashArr: seq<HashDistance>)
      requires Valid(Value()) && |hash| == |local|
      ensures hashArr == MeasureAll(Collected(Value(), hash, count), XorMetric(hash))
    {
      ghost var t := Value();
      var cpl := HomeIndex(hash);
      hashArr := CopyPeersFromList(hash, [], buckets[cpl].list, []);
      assert [] + t.buckets[cpl] == t.buckets[cpl];
      if |hashArr| < count {
        hashArr := CopyNeighbours(hash, hashArr, cpl);
      }
    }

    method CopyNeighbours(hash: Id, start: seq<HashDistance>, cpl: nat) returns (hashArr: seq<HashDistance>)
      requires Valid(Value()) && |hash| == |local| && cpl < |buckets|
      requires start == MeasureAll(buckets[cpl].list, XorMetric(hash))
      ensures var read := buckets[cpl].list + Segment(Value(), cpl - 1, cpl) + Segment(Value(), cpl + 1, cpl + 2);
              hashArr == MeasureAll(read, XorMetric(hash))
    {
      NeighbourLists(Value(), cpl);
      ghost var home, left := buckets[cpl].list, Segment(Value(), cpl - 1, cpl);
      hashArr := start;
      if cpl > 0 {
        assert left == buckets[cpl - 1].list;
        hashArr := CopyPeersFromList(hash, hashArr, buckets[cpl - 1].list, home);
      } else {
        assert home + left == home;
      }
      if cpl < |buckets| - 1 {
        hashArr := CopyPeersFromList(hash, hashArr, buckets[cpl + 1].list, home + left);
      } else {
        assert home + left + [] == home + left;
      }
    }

    method Find(id: Id) returns (found: Id)
      requires IsValid() && |id| == |local|
      ensures found == if id in Peers(Value()) then id else []
    {
      var srch := NearestPeers(id, 1);
      FoundFirst(Value(), id, srch);
      if |srch| == 0 || srch[0] != id {
        return [];
      }
      return srch[0];
    }
  }

  lemma FoundFirst(t: Table, id: Id, srch: seq<Id>)
    requires Valid(t) && Fits(t, id) && srch == NearestSpec(t, id, 1)
    ensures id in Peers(t) <==> |srch| > 0 && srch[0] == id
  {
    FirstIsTarget(t, id);
    assert |srch| <= 1;
  }

  method CopyPeersFromList(target: Id, hashArr: seq<HashDistance>, list: seq<Id>, ghost read: seq<Id>)
    returns (r: seq<HashDistance>)
    requires hashArr == MeasureAll(read, XorMetric(target))
    ensures r == MeasureAll(read + list, XorMetric(target))
  {
    r := hashArr;
    for e := 0 to |list|
      invariant r == MeasureAll(read + list[..e], XorMetric(target))
    {
      r := r + [HashDistance(list[e], XorMetric(target)(list[e]))];
      assert read + list[..e + 1] == read + list[..e] + [list[e]];
    }
    assert list[..|list|] == list;
  }

  method Front(hashArr: seq<HashDistance>, count: int) returns (out: seq<Id>)
    ensures out == Take(Hashes(hashArr), count)
  {
    out := [];
    var i := 0;
    while i < count && i < |hashArr|
      invariant 0 <= i <= |hashArr| && (i <= count || i == 0)
      invariant out == Hashes(hashArr)[..i]
    {
      out := out + [hashArr[i].hash];
      i := i + 1;
    }
  }

  lemma NeighbourLists(t: Table, c: nat)
    requires Valid(t) && c < |t.buckets|
    ensures Segment(t, c - 1, c) == if c > 0 then t.buckets[c - 1] else []
    ensures Segment(t, c + 1, c + 2) == if c + 1 < |t.buckets| then t.buckets[c + 1] else []
  {
    if c > 0 { OneBucket(t, c - 1); }
    if c + 1 < |t.buckets| { OneBucket(t, c + 1); }
  }

  lemma RunExtend(local: Id, bucketsize: nat, h: seq<Op>, op: Op)
    requires History(local, bucketsize, h) && |op.peer| == |local|
    ensures History(local, bucketsize, h + [op])
    ensures var e := Apply(Run(local, bucketsize, h), op);
            && Run(local, bucketsize, h + [op]) == e.table
            && Tracked(local, bucketsize, h + [op])
               == Tracked(local, bucketsize, h) + (set p | p in e.added) - (set p | p in e.removed)
  {
    assert (h + [op])[..|h|] == h && (h + [op])[|h|] == op;
  }

  lemma FlatNext(lists: seq<seq<Id>>, i: nat)
    requires i < |lists|
    ensures Flat(lists[..i + 1]) == Flat(lists[..i]) + lists[i]
  {
    assert lists[..i + 1] == lists[..i] + [lists[i]];
    FlatConcat(lists[..i], [lists[i]]);
    assert Flat([lists[i]]) == lists[i] + Flat([]);
  }

  lemma FlatSet(t: Table)
    requires Valid(t)
    ensures Distinct(Flat(t.buckets))
    ensures (set p | p in Flat(t.buckets)) == Peers(t)
    ensures |Flat(t.buckets)| == |Peers(t)|
  {
    SegmentAll(t);
    SegmentDistinct(t, |t.buckets|);
    var all := Flat(t.buckets);
    forall p
      ensures p in all <==> p in Peers(t)
    {
      FlatHolds(t.buckets, p);
    }
    DistinctSize(all);
  }
}
