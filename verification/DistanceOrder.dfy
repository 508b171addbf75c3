/**
 * Sorting ids by their distance to a center (hash/hash.go, kad_table.go). The order is
 * proved for any measure that tells the ids apart; `XorMetric` is the one in use.
 * `sort.Sort` is a library call: it is modelled by an insertion sort, and
 * `SortByDistanceUnique` shows that every sort gives the same list.
 */
module DistanceOrder {
  import opened Collections
  import opened Keyspace

  /** Distance to `center`; ids of another length never meet it. */
  function XorMetric(center: Id): Id -> nat {
    (p: Id) => if |p| == |center| then Distance(p, center) else 0
  }

  /** An id with its distance to the center computed once. */
  datatype HashDistance = HashDistance(hash: Id, distance: nat)

  function Insert(x: HashDistance, s: seq<HashDistance>): seq<HashDistance> {
    if s == [] || x.distance < s[0].distance then [x] + s else [s[0]] + Insert(x, s[1..])
  }

  function SortArr(s: seq<HashDistance>): seq<HashDistance> {
    if s == [] then [] else Insert(s[0], SortArr(s[1..]))
  }

  function MeasureAll(ids: seq<Id>, metric: Id -> nat): seq<HashDistance> {
    seq(|ids|, i requires 0 <= i < |ids| => HashDistance(ids[i], metric(ids[i])))
  }

  function Hashes(s: seq<HashDistance>): seq<Id> {
    seq(|s|, i requires 0 <= i < |s| => s[i].hash)
  }

  function SortIds(ids: seq<Id>, metric: Id -> nat): seq<Id> {
    Hashes(SortArr(MeasureAll(ids, metric)))
  }

  function Take<T>(s: seq<T>, n: int): seq<T> {
    if n <= 0 then [] else if |s| <= n then s else s[..n]
  }

  ghost predicate SameLength(ids: seq<Id>, t: Id) {
    forall i :: 0 <= i < |ids| ==> |ids[i]| == |t|
  }

  /** No id twice, and no two ids equally far. */
  ghost predicate Apart(s: seq<Id>, metric: Id -> nat) {
    forall i, j :: 0 <= i < j < |s| ==> metric(s[i]) != metric(s[j])
  }

  ghost predicate Ascending(s: seq<Id>, metric: Id -> nat) {
    forall i, j :: 0 <= i < j < |s| ==> metric(s[i]) < metric(s[j])
  }

  ghost predicate AllNearer(xs: seq<Id>, ys: seq<Id>, metric: Id -> nat) {
    forall i, j :: 0 <= i < |xs| && 0 <= j < |ys| ==> metric(xs[i]) < metric(ys[j])
  }

  /** The XOR distance tells ids apart. */
  lemma XorApart(s: seq<Id>, t: Id)
    requires SameLength(s, t) && Distinct(s)
    ensures Apart(s, XorMetric(t))
  {
    forall i, j | 0 <= i < j < |s|
      ensures XorMetric(t)(s[i]) != XorMetric(t)(s[j])
    {
      DistanceInjective(s[i], s[j], t);
    }
  }

  // ---------- the sort sorts ----------

  ghost predicate Ordered(s: seq<HashDistance>) {
    forall i, j :: 0 <= i < j < |s| ==> s[i].distance <= s[j].distance
  }

  lemma {:induction false} InsertHolds(x: HashDistance, s: seq<HashDistance>, e: HashDistance)
    ensures e in Insert(x, s) <==> e == x || e in s
  {
    if s != [] && s[0].distance <= x.distance {
      InsertHolds(x, s[1..], e);
      assert e in s <==> e == s[0] || e in s[1..];
    }
  }

  lemma {:induction false} InsertSorts(x: HashDistance, s: seq<HashDistance>)
    requires Ordered(s)
    ensures Ordered(Insert(x, s))
  {
    if s != [] && s[0].distance <= x.distance {
      var r := Insert(x, s[1..]);
      InsertSorts(x, s[1..]);
      forall i | 0 <= i < |r|
        ensures s[0].distance <= r[i].distance
      {
        InsertHolds(x, s[1..], r[i]);
      }
    }
  }

  lemma {:induction false} SortArrSorts(s: seq<HashDistance>)
    ensures Ordered(SortArr(s))
  {
    if s != [] {
      SortArrSorts(s[1..]);
      InsertSorts(s[0], SortArr(s[1..]));
    }
  }

  lemma {:induction false} SortArrHolds(s: seq<HashDistance>, e: HashDistance)
    ensures e in SortArr(s) <==> e in s
  {
    if s != [] {
      SortArrHolds(s[1..], e);
      InsertHolds(s[0], SortArr(s[1..]), e);
      assert e in s <==> e == s[0] || e in s[1..];
    }
  }

  lemma {:induction false} InsertHashes(x: HashDistance, s: seq<HashDistance>)
    ensures multiset(Hashes(Insert(x, s))) == multiset(Hashes(s)) + multiset{x.hash}
  {
    if s == [] || x.distance < s[0].distance {
      assert Hashes([x] + s) == [x.hash] + Hashes(s);
    } else {
      var r := Insert(x, s[1..]);
      InsertHashes(x, s[1..]);
      assert Hashes([s[0]] + r) == [s[0].hash] + Hashes(r);
      assert Hashes(s) == [s[0].hash] + Hashes(s[1..]);
    }
  }

  lemma {:induction false} SortArrHashes(s: seq<HashDistance>)
    ensures multiset(Hashes(SortArr(s))) == multiset(Hashes(s))
  {
    if s != [] {
      SortArrHashes(s[1..]);
      InsertHashes(s[0], SortArr(s[1..]));
      assert Hashes(s) == [s[0].hash] + Hashes(s[1..]);
    }
  }

  lemma SortIdsPermutes(ids: seq<Id>, metric: Id -> nat)
    ensures multiset(SortIds(ids, metric)) == multiset(ids)
    ensures |SortIds(ids, metric)| == |ids|
    ensures forall p :: p in SortIds(ids, metric) <==> p in ids
  {
    var m := MeasureAll(ids, metric);
    SortArrHashes(m);
    assert Hashes(m) == ids;
    var s := SortIds(ids, metric);
    assert |multiset(s)| == |multiset(ids)|;
    forall p
      ensures p in s <==> p in ids
    {
      assert p in s <==> p in multiset(s);
      assert p in ids <==> p in multiset(ids);
    }
  }

  ghost predicate NonDecreasing(s: seq<Id>, metric: Id -> nat) {
    forall i, j :: 0 <= i < j < |s| ==> metric(s[i]) <= metric(s[j])
  }

  /** Whatever the list, repetitions included, the sort orders it by distance. */
  lemma SortIdsOrders(ids: seq<Id>, metric: Id -> nat)
    ensures NonDecreasing(SortIds(ids, metric), metric)
  {
    var m := MeasureAll(ids, metric);
    SortArrSorts(m);
    var a, s := SortArr(m), SortIds(ids, metric);
    forall i | 0 <= i < |a|
      ensures a[i].distance == metric(s[i])
    {
      SortArrHolds(m, a[i]);
    }
    forall i, j | 0 <= i < j < |s|
      ensures metric(s[i]) <= metric(s[j])
    {
      assert a[i].distance <= a[j].distance;
    }
  }

  lemma SortIdsAscends(ids: seq<Id>, metric: Id -> nat)
    requires Apart(ids, metric)
    ensures Ascending(SortIds(ids, metric), metric)
  {
    SortIdsPermutes(ids, metric);
    SortIdsOrders(ids, metric);
    ApartPermuted(ids, SortIds(ids, metric), metric);
  }

  lemma {:induction false} DistinctMultiset<T>(a: seq<T>, b: seq<T>)
    requires Distinct(a) && multiset(a) == multiset(b)
    ensures Distinct(b)
  {
    forall i, j | 0 <= i < j < |b|
      ensures b[i] != b[j]
    {
      if b[i] == b[j] {
        assert b == b[..i] + [b[i]] + b[i + 1..j] + [b[j]] + b[j + 1..];
        assert multiset(b)[b[i]] >= 2;
        AtMostOnce(a, b[i]);
      }
    }
  }

  lemma {:induction false} AtMostOnce<T>(a: seq<T>, x: T)
    requires Distinct(a)
    ensures multiset(a)[x] <= 1
  {
    if a != [] {
      assert a == [a[0]] + a[1..];
      AtMostOnce(a[1..], x);
      assert a[0] !in a[1..];
    }
  }

  lemma ApartPermuted(a: seq<Id>, b: seq<Id>, metric: Id -> nat)
    requires Apart(a, metric) && multiset(a) == multiset(b)
    ensures Apart(b, metric)
  {
    ApartDistinct(a, metric);
    DistinctMultiset(a, b);
    forall i, j | 0 <= i < j < |b|
      ensures metric(b[i]) != metric(b[j])
    {
      assert b[i] in multiset(a) && b[j] in multiset(a);
      var k :| 0 <= k < |a| && a[k] == b[i];
      var l :| 0 <= l < |a| && a[l] == b[j];
    }
  }

  lemma ApartDistinct(a: seq<Id>, metric: Id -> nat)
    requires Apart(a, metric)
    ensures Distinct(a)
  {
  }

  // ---------- every sort gives the same list ----------

  /** Only equal ids are equally far. */
  ghost predicate TellsApart(s: seq<Id>, metric: Id -> nat) {
    forall i, j :: 0 <= i < |s| && 0 <= j < |s| && metric(s[i]) == metric(s[j]) ==> s[i] == s[j]
  }

  lemma SameHead(a: seq<Id>, b: seq<Id>, metric: Id -> nat)
    requires NonDecreasing(a, metric) && NonDecreasing(b, metric) && TellsApart(a, metric)
    requires multiset(a) == multiset(b) && a != []
    ensures b != [] && a[0] == b[0]
  {
    assert a[0] in multiset(b);
    var j :| 0 <= j < |b| && b[j] == a[0];
    assert b[0] in multiset(a);
    var i :| 0 <= i < |a| && a[i] == b[0];
    assert metric(a[0]) <= metric(a[i]) && metric(b[0]) <= metric(b[j]);
  }

  lemma SameTails<T>(a: seq<T>, b: seq<T>)
    requires a != [] && b != [] && a[0] == b[0] && multiset(a) == multiset(b)
    ensures multiset(a[1..]) == multiset(b[1..])
  {
    assert a == [a[0]] + a[1..] && b == [b[0]] + b[1..];
    assert multiset(a[1..]) == multiset(a) - multiset{a[0]};
    assert multiset(b[1..]) == multiset(b) - multiset{b[0]};
  }

  lemma {:induction false} SortedUnique(a: seq<Id>, b: seq<Id>, metric: Id -> nat)
    requires NonDecreasing(a, metric) && NonDecreasing(b, metric) && TellsApart(a, metric)
    requires multiset(a) == multiset(b)
    ensures a == b
  {
    if a == [] {
      assert |multiset(b)| == 0;
    } else {
      SameHead(a, b, metric);
      SameTails(a, b);
      SortedUnique(a[1..], b[1..], metric);
      assert a == [a[0]] + a[1..] && b == [b[0]] + b[1..];
    }
  }

  lemma SortIdsUnique(ids: seq<Id>, s: seq<Id>, metric: Id -> nat)
    requires TellsApart(s, metric) && NonDecreasing(s, metric) && multiset(s) == multiset(ids)
    ensures s == SortIds(ids, metric)
  {
    SortIdsPermutes(ids, metric);
    SortIdsOrders(ids, metric);
    SortedUnique(s, SortIds(ids, metric), metric);
  }

  /** By XOR distance any ordered arrangement of the ids, repetitions included, is what the sort gives. */
  lemma SortByDistanceUnique(ids: seq<Id>, s: seq<Id>, center: Id)
    requires SameLength(ids, center) && NonDecreasing(s, XorMetric(center)) && multiset(s) == multiset(ids)
    ensures s == SortIds(ids, XorMetric(center))
  {
    forall i | 0 <= i < |s| ensures |s[i]| == |center| {
      assert s[i] in multiset(ids);
    }
    forall i, j | 0 <= i < |s| && 0 <= j < |s| && XorMetric(center)(s[i]) == XorMetric(center)(s[j])
      ensures s[i] == s[j]
    {
      if s[i] != s[j] { DistanceInjective(s[i], s[j], center); }
    }
    SortIdsUnique(ids, s, XorMetric(center));
  }

  /**
   * The order in which ids are collected does not matter, and when all of `xs` is nearer
   * than all of `ys`, sorting both is sorting each.
   */
  lemma SortSplit(all: seq<Id>, xs: seq<Id>, ys: seq<Id>, metric: Id -> nat)
    requires Apart(all, metric) && multiset(all) == multiset(xs + ys) && AllNearer(xs, ys, metric)
    ensures SortIds(all, metric) == SortIds(xs, metric) + SortIds(ys, metric)
    ensures Apart(xs, metric) && Apart(ys, metric)
  {
    ApartPermuted(all, xs + ys, metric);
    ApartParts(xs, ys, metric);
    SortIdsPermutes(xs, metric);
    SortIdsPermutes(ys, metric);
    AscendingConcat(xs, ys, metric);
    SortIdsUnique(all, SortIds(xs, metric) + SortIds(ys, metric), metric);
  }

  lemma ApartParts(xs: seq<Id>, ys: seq<Id>, metric: Id -> nat)
    requires Apart(xs + ys, metric)
    ensures Apart(xs, metric) && Apart(ys, metric)
  {
    forall i, j | 0 <= i < j < |xs|
      ensures metric(xs[i]) != metric(xs[j])
    {
      assert (xs + ys)[i] == xs[i] && (xs + ys)[j] == xs[j];
    }
    forall i, j | 0 <= i < j < |ys|
      ensures metric(ys[i]) != metric(ys[j])
    {
      assert (xs + ys)[|xs| + i] == ys[i] && (xs + ys)[|xs| + j] == ys[j];
    }
  }

  lemma AscendingConcat(xs: seq<Id>, ys: seq<Id>, metric: Id -> nat)
    requires Apart(xs, metric) && Apart(ys, metric) && AllNearer(xs, ys, metric)
    ensures Ascending(SortIds(xs, metric) + SortIds(ys, metric), metric)
  {
    SortIdsPermutes(xs, metric);
    SortIdsPermutes(ys, metric);
    SortIdsAscends(xs, metric);
    SortIdsAscends(ys, metric);
    var a, b := SortIds(xs, metric), SortIds(ys, metric);
    forall i, j | 0 <= i < |a| && 0 <= j < |b|
      ensures metric(a[i]) < metric(b[j])
    {
      assert a[i] in xs && b[j] in ys;
    }
  }
}
