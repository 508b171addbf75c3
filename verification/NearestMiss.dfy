/**
 * The search of the routing table is not exact everywhere: whatever the size of the buckets,
 * one update more than a bucket holds leads to tables whose peers a search for some target
 * does not find at all.
 */
module NearestMiss {
  import opened Collections
  import opened Keyspace
  import opened DistanceOrder
  import opened TableSpec
  import opened TableRuns
  import opened Nearest

  function Empties(n: nat): seq<seq<Id>> {
    seq(n, _ => [])
  }

  /** `n` empty buckets, then a last one. */
  function Hollow(local: Id, n: nat, last: seq<Id>): Table {
    Table(local, 1, Empties(n) + [last])
  }

  predicate Deep(local: Id, a: Id, b: Id, n: nat) {
    && |a| == |b| == |local| >= 1
    && n <= CommonPrefixLen(a, local) < CommonPrefixLen(b, local)
  }

  lemma HollowOverfull(local: Id, a: Id, b: Id, n: nat)
    requires Deep(local, a, b, n)
    ensures Overfull(Hollow(local, n, [b, a]))
  {
    CommonPrefixMeaning(a, local);
    CommonPrefixMeaning(b, local);
  }

  lemma SplitPair(local: Id, a: Id, b: Id, n: nat)
    requires Deep(local, a, b, n)
    ensures SameLength([b, a], local)
    ensures Far([b, a], n, local) == if CommonPrefixLen(a, local) > n then [b, a] else [b]
    ensures Near([b, a], n, local) == if CommonPrefixLen(a, local) > n then [] else [a]
  {
    assert [b, a][1..] == [a] && [a][1..] == [];
    assert Far([], n, local) == [] && Near([], n, local) == [];
    assert Far([a], n, local) == if CommonPrefixLen(a, local) > n then [a] else [];
    assert Near([a], n, local) == if CommonPrefixLen(a, local) > n then [] else [a];
  }

  /** The two peers sink until their prefixes part. */
  lemma {:induction false} Sinks(local: Id, a: Id, b: Id, n: nat)
    requires Deep(local, a, b, n) && Overfull(Hollow(local, n, [b, a]))
    ensures NextBucket(Hollow(local, n, [b, a]))
            == (Table(local, 1, Empties(CommonPrefixLen(a, local)) + [[a], [b]]), [])
    decreases CommonPrefixLen(a, local) - n
  {
    var t := Hollow(local, n, [b, a]);
    var s := SplitLast(t);
    SplitPair(local, a, b, n);
    NextBucketStep(t);
    assert t.buckets[..n] == Empties(n);
    if CommonPrefixLen(a, local) > n {
      assert s.buckets == Empties(n + 1) + [[b, a]];
      HollowOverfull(local, a, b, n + 1);
      Sinks(local, a, b, n + 1);
    } else {
      assert s.buckets == Empties(n) + [[a], [b]];
    }
  }

  lemma FirstUpdate(local: Id, a: Id)
    requires |a| == |local| >= 1
    ensures Valid(NewTable(local, 1)) && Apply(NewTable(local, 1), Update(a, false)).table == Hollow(local, 0, [a])
  {
    var t := NewTable(local, 1);
    assert [a] + t.buckets[0] == [a];
    assert t.buckets[0 := [a]] == Empties(0) + [[a]];
    PushOutcome(t, a);
  }

  lemma SecondUpdate(local: Id, a: Id, b: Id)
    requires Deep(local, a, b, 0) && Valid(Hollow(local, 0, [a]))
    ensures Apply(Hollow(local, 0, [a]), Update(b, false)).table
            == Table(local, 1, Empties(CommonPrefixLen(a, local)) + [[a], [b]])
  {
    var t := Hollow(local, 0, [a]);
    assert [b] + t.buckets[0] == [b, a];
    assert t.buckets[0 := [b, a]] == Empties(0) + [[b, a]];
    PushOutcome(t, b);
    HollowOverfull(local, a, b, 0);
    Sinks(local, a, b, 0);
  }

  /** With buckets of one peer, after two updates. */
  lemma TwoUpdates(local: Id, a: Id, b: Id)
    requires Deep(local, a, b, 0)
    ensures History(local, 1, [Update(a, false), Update(b, false)])
    ensures Run(local, 1, [Update(a, false), Update(b, false)])
            == Table(local, 1, Empties(CommonPrefixLen(a, local)) + [[a], [b]])
  {
    var first, both := [Update(a, false)], [Update(a, false), Update(b, false)];
    assert first[..0] == [] && both[..1] == first;
    FirstUpdate(local, a);
    assert Run(local, 1, first) == Hollow(local, 0, [a]);
    SecondUpdate(local, a, b);
  }

  lemma NothingRead(t: Table, target: Id, count: int)
    requires Valid(t) && Fits(t, target) && Home(t, target) == 0
    requires |t.buckets| > 2 && t.buckets[0] == [] && t.buckets[1] == []
    ensures NearestSpec(t, target, count) == []
  {
    OneBucket(t, 1);
    assert Segment(t, -1, 0) == [];
  }

  /** A search from far away finds nobody, though the table holds two peers. */
  lemma SearchMissesAll(local: Id, a: Id, b: Id, target: Id)
    requires Deep(local, a, b, 2) && |target| == |local| && CommonPrefixLen(target, local) == 0
    ensures History(local, 1, [Update(a, false), Update(b, false)])
    ensures var t := Run(local, 1, [Update(a, false), Update(b, false)]);
            Peers(t) == {a, b} && NearestSpec(t, target, 1) == []
  {
    TwoUpdates(local, a, b);
    var t := Run(local, 1, [Update(a, false), Update(b, false)]);
    assert Valid(t);
    PairPeers(t, CommonPrefixLen(a, local), a, b);
    NothingRead(t, target, 1);
  }

  lemma PairPeers(t: Table, n: nat, a: Id, b: Id)
    requires t.buckets == Empties(n) + [[a], [b]]
    ensures Peers(t) == {a, b}
    ensures forall i :: 0 <= i < n ==> t.buckets[i] == []
  {
    assert a in t.buckets[n] && b in t.buckets[n + 1];
    forall p | p in Peers(t) ensures p in {a, b} {
      var i :| 0 <= i < |t.buckets| && p in t.buckets[i];
      assert i == n || i == n + 1;
    }
  }

  lemma {:induction false} TopBit(b: nat, k: nat)
    ensures b < Pow2(k) ==> Shr(b, k) == 0
    ensures Pow2(k) <= b < 2 * Pow2(k) ==> Shr(b, k) == 1
  {
    if k > 0 { TopBit(b / 2, k - 1); }
  }

  /** The byte whose only bit is bit `n` shares exactly `n` bits with the zero byte. */
  lemma OneBitPrefix(b: Byte, n: nat)
    requires n < 8 && b == Pow2(7 - n)
    ensures CommonPrefixLen([b], [0]) == n
  {
    forall i | 0 <= i <= n ensures BitAt([b], i) == (if i == n then 1 else 0) && BitAt([0], i) == 0 {
      OneBit(b, n, i);
    }
    PrefixIs([b], [0], n);
  }

  lemma PrefixIs(a: Id, b: Id, n: nat)
    requires |a| == |b| && n < 8 * |a| && AgreeBefore(a, b, n) && BitAt(a, n) != BitAt(b, n)
    ensures CommonPrefixLen(a, b) == n
  {
    CommonPrefixMeaning(a, b);
  }

  lemma OneBit(b: Byte, n: nat, i: nat)
    requires i <= n < 8 && b == Pow2(7 - n)
    ensures ByteBit(b, i) == (if i == n then 1 else 0) && ByteBit(0, i) == 0
  {
    TopBit(b, 7 - i);
    TopBit(0, 7 - i);
    Growing(7 - n, 7 - i);
  }

  lemma {:induction false} Growing(m: nat, k: nat)
    requires m <= k
    ensures 0 < Pow2(m) <= Pow2(k) && (m < k ==> Pow2(m) < Pow2(k))
  {
    if m < k {
      Growing(m, k - 1);
      assert Pow2(k) == 2 * Pow2(k - 1);
    } else if m > 0 {
      Growing(m - 1, k - 1);
    }
  }

  /** Ids of one byte: we are 0, the table holds 32 and 16, and a search for 128 finds nobody. */
  lemma OneByteMiss()
    ensures var h := [Update([32], false), Update([16], false)];
            History([0], 1, h) && Peers(Run([0], 1, h)) == {[32], [16]} && NearestSpec(Run([0], 1, h), [128], 1) == []
  {
    assert Pow2(4) == 16 && Pow2(5) == 32;
    assert Pow2(6) == 64 && Pow2(7) == 128;
    OneBitPrefix(32, 2);
    OneBitPrefix(16, 3);
    OneBitPrefix(128, 0);
    SearchMissesAll([0], [32], [16], [128]);
  }

  // ---------- buckets of any size ----------

  function Updates(ps: seq<Id>): seq<Op> {
    seq(|ps|, i requires 0 <= i < |ps| => Update(ps[i], false))
  }

  function Backwards(ps: seq<Id>): seq<Id> {
    if ps == [] then [] else [ps[|ps| - 1]] + Backwards(ps[..|ps| - 1])
  }

  lemma {:induction false} BackwardsHolds(ps: seq<Id>)
    ensures |Backwards(ps)| == |ps| && forall p :: p in Backwards(ps) <==> p in ps
  {
    if ps != [] {
      var n := |ps| - 1;
      BackwardsHolds(ps[..n]);
      assert ps == ps[..n] + [ps[n]];
    }
  }

  /** As many peers as a bucket holds stay in the first bucket, newest first. */
  lemma {:induction false} FillOne(local: Id, k: nat, ps: seq<Id>)
    requires |local| >= 1 && 1 <= k && |ps| <= k && SameLength(ps, local) && Distinct(ps)
    ensures History(local, k, Updates(ps)) && Run(local, k, Updates(ps)) == Table(local, k, [Backwards(ps)])
  {
    if ps != [] {
      var n := |ps| - 1;
      FillOne(local, k, ps[..n]);
      FillNext(local, k, ps);
    }
  }

  lemma FillNext(local: Id, k: nat, ps: seq<Id>)
    requires |local| >= 1 && 1 <= k && 0 < |ps| <= k && SameLength(ps, local) && Distinct(ps)
    requires var n := |ps| - 1;
             && History(local, k, Updates(ps[..n]))
             && Run(local, k, Updates(ps[..n])) == Table(local, k, [Backwards(ps[..n])])
    ensures History(local, k, Updates(ps)) && Run(local, k, Updates(ps)) == Table(local, k, [Backwards(ps)])
  {
    var n := |ps| - 1;
    var t := Run(local, k, Updates(ps[..n]));
    BackwardsHolds(ps[..n]);
    assert Updates(ps)[..n] == Updates(ps[..n]) && Updates(ps)[n] == Update(ps[n], false);
    PushOutcome(t, ps[n]);
    assert PushFront(t, ps[n]).buckets == [Backwards(ps)];
  }

  /** A split never touches the buckets before the last one. */
  lemma {:induction false} NextBucketKeepsFront(t: Table)
    requires Overfull(t)
    ensures var r, n := NextBucket(t).0, |t.buckets| - 1;
            |r.buckets| >= n + 2 && r.buckets[..n] == t.buckets[..n]
    decreases 8 * |t.local| + 1 - |t.buckets|
  {
    var s, n := SplitLast(t), |t.buckets| - 1;
    NextBucketStep(t);
    assert s.buckets[..n] == t.buckets[..n];
    if |s.buckets[n + 1]| > t.bucketsize {
      NextBucketKeepsFront(s);
      var r := NextBucket(s).0;
      assert r.buckets[..n] == r.buckets[..n + 1][..n] && s.buckets[..n] == s.buckets[..n + 1][..n];
    }
  }

  ghost predicate AllDeep(s: seq<Id>, local: Id, m: nat) {
    SameLength(s, local) && forall i :: 0 <= i < |s| ==> CommonPrefixLen(s[i], local) >= m
  }

  lemma {:induction false} SplitDeep(s: seq<Id>, n: nat, local: Id)
    requires AllDeep(s, local, n + 1)
    ensures Near(s, n, local) == [] && Far(s, n, local) == s
  {
    if s != [] { SplitDeep(s[1..], n, local); }
  }

  /** Peers that share `m` bits with us sink to bucket `m` at least, and leave the buckets above empty. */
  lemma {:induction false} SinksDeep(t: Table, m: nat)
    requires Overfull(t) && |t.buckets| <= m + 1 && AllDeep(t.buckets[|t.buckets| - 1], t.local, m)
    ensures var r, n := NextBucket(t).0, |t.buckets| - 1;
            |r.buckets| >= m + 2 && forall i :: n <= i < m ==> r.buckets[i] == []
    decreases m + 1 - |t.buckets|
  {
    var s, n := SplitLast(t), |t.buckets| - 1;
    NextBucketKeepsFront(t);
    if n < m {
      SplitDeep(t.buckets[n], n, t.local);
      NextBucketStep(t);
      assert s.buckets == t.buckets[..n] + [[], t.buckets[n]];
      SinksDeep(s, m);
      NextBucketKeepsFront(s);
      assert NextBucket(s).0.buckets[..n + 1][n] == s.buckets[..n + 1][n] == [];
    }
  }

  /**
   * With buckets of any size `k`, updates of `k + 1` peers that share two bits with us leave a
   * table that holds at least `k` of them, and a search for an id that differs from ours in
   * the first bit finds none, however many it asks for.
   */
  lemma FullBucketMissesAll(local: Id, k: nat, ps: seq<Id>, target: Id, count: int)
    requires |local| >= 1 && k >= 1 && |ps| == k + 1 && Distinct(ps) && AllDeep(ps, local, 2)
    requires |target| == |local| && CommonPrefixLen(target, local) == 0
    ensures History(local, k, Updates(ps))
    ensures var t := Run(local, k, Updates(ps));
            |Peers(t)| >= k && (forall p :: p in Peers(t) ==> p in ps) && NearestSpec(t, target, count) == []
  {
    LastSinks(local, k, ps);
    LastPeers(local, k, ps);
    NothingRead(Run(local, k, Updates(ps)), target, count);
  }

  lemma LastSinks(local: Id, k: nat, ps: seq<Id>)
    requires |local| >= 1 && k >= 1 && |ps| == k + 1 && Distinct(ps) && AllDeep(ps, local, 2)
    ensures History(local, k, Updates(ps))
    ensures var t := Run(local, k, Updates(ps));
            |t.buckets| > 2 && t.buckets[0] == [] && t.buckets[1] == []
  {
    FillOne(local, k, ps[..k]);
    var t := Run(local, k, Updates(ps[..k]));
    assert Updates(ps)[..k] == Updates(ps[..k]) && Updates(ps)[k] == Update(ps[k], false);
    BackwardsHolds(ps[..k]);
    PushOutcome(t, ps[k]);
    var s := PushFront(t, ps[k]);
    assert s.buckets == [Backwards(ps)];
    BackwardsHolds(ps);
    forall i | 0 <= i < |Backwards(ps)|
      ensures |Backwards(ps)[i]| == |local| && CommonPrefixLen(Backwards(ps)[i], local) >= 2
    {
      assert Backwards(ps)[i] in Backwards(ps);
    }
    SinksDeep(s, 2);
  }

  lemma LastPeers(local: Id, k: nat, ps: seq<Id>)
    requires |local| >= 1 && k >= 1 && |ps| == k + 1 && Distinct(ps) && SameLength(ps, local)
    ensures History(local, k, Updates(ps))
    ensures var t := Run(local, k, Updates(ps)); |Peers(t)| >= k && forall p :: p in Peers(t) ==> p in ps
  {
    var h := Updates(ps[..k]);
    FirstPeers(local, k, ps);
    assert Updates(ps) == h + [Update(ps[k], false)];
    RunLeaves(local, k, h, ps[k]);
    DistinctSize(ps);
  }

  lemma RunLeaves(local: Id, k: nat, h: seq<Op>, p: Id)
    requires History(local, k, h) && |p| == |local|
    ensures History(local, k, h + [Update(p, false)])
    ensures var left, all := Peers(Run(local, k, h + [Update(p, false)])), Peers(Run(local, k, h)) + {p};
            |left| >= |all| - 1 && left <= all
  {
    var op := Update(p, false);
    assert (h + [op])[..|h|] == h && (h + [op])[|h|] == op;
    RunStepMeaning(local, k, h, op);
    UpdateLeaves(Run(local, k, h), p, h + [op]);
  }

  lemma FirstPeers(local: Id, k: nat, ps: seq<Id>)
    requires |local| >= 1 && k >= 1 && |ps| == k + 1 && Distinct(ps) && SameLength(ps, local)
    ensures History(local, k, Updates(ps[..k]))
    ensures Peers(Run(local, k, Updates(ps[..k]))) + {ps[k]} == set p | p in ps
  {
    FillOne(local, k, ps[..k]);
    BackwardsHolds(ps[..k]);
    OnePeers(Run(local, k, Updates(ps[..k])), Backwards(ps[..k]));
    OneMore(Backwards(ps[..k]), ps, k);
  }

  lemma OneMore(b: seq<Id>, ps: seq<Id>, k: nat)
    requires |ps| == k + 1 && forall p :: p in b <==> p in ps[..k]
    ensures (set p | p in b) + {ps[k]} == set p | p in ps
  {
    assert ps == ps[..k] + [ps[k]];
  }

  /** An update loses one peer at most. */
  lemma UpdateLeaves(t: Table, p: Id, h: seq<Op>)
    requires Valid(t) && Fits(t, p) && StepMeaning(t, Update(p, false), h)
    ensures var left, all := Peers(Apply(t, Update(p, false)).table), Peers(t) + {p};
            |left| >= |all| - 1 && left <= all
  {
    var e := Apply(t, Update(p, false));
    LeavesOne(Peers(t) + {p}, Peers(e.table), e.removed);
  }

  lemma OnePeers(t: Table, b: seq<Id>)
    requires t.buckets == [b]
    ensures Peers(t) == set p | p in b
  {
    assert t.buckets[0] == b;
  }

  lemma LeavesOne(all: set<Id>, left: set<Id>, removed: seq<Id>)
    requires left == all || (|removed| == 1 && left == all - {removed[0]})
    ensures |left| >= |all| - 1 && left <= all
  {
    if left != all && removed[0] in all { assert all == left + {removed[0]}; }
  }
}
