/**
 * The peer queue of peerqueue/: a binary heap ordered by distance (distance.go), and the
 * goroutine that serves it through two channels (sync.go).
 */
module PeerQueue {
  import opened Collections
  import opened Keyspace
  import opened DistanceOrder

  // ---------- heap order ----------

  function Swap<T>(s: seq<T>, i: nat, j: nat): seq<T>
    requires i < |s| && j < |s|
  {
    s[i := s[j]][j := s[i]]
  }

  lemma SwapMultiset<T>(s: seq<T>, i: nat, j: nat)
    requires i < |s| && j < |s|
    ensures multiset(Swap(s, i, j)) == multiset(s)
  {
  }

  ghost predicate Below(s: seq<HashDistance>, k: nat)
    requires 0 < k < |s|
  {
    s[(k - 1) / 2].distance <= s[k].distance
  }

  ghost predicate IsHeap(s: seq<HashDistance>) {
    forall k :: 0 < k < |s| ==> Below(s, k)
  }

  lemma {:induction false} RootIsMinimum(s: seq<HashDistance>, k: nat)
    requires IsHeap(s) && k < |s|
    ensures s[0].distance <= s[k].distance
  {
    if k > 0 {
      RootIsMinimum(s, (k - 1) / 2);
      assert Below(s, k);
    }
  }

  /** Everything is in order but perhaps `j` against its parent. */
  ghost predicate HeapButUp(s: seq<HashDistance>, j: nat)
    requires j < |s|
  {
    && (forall k :: 0 < k < |s| && k != j ==> Below(s, k))
    && (forall k :: 0 < k < |s| && j > 0 && (k - 1) / 2 == j ==> s[(j - 1) / 2].distance <= s[k].distance)
  }

  /** Among the first `n`, everything is in order but perhaps `i` against its children. */
  ghost predicate HeapButDown(s: seq<HashDistance>, i: nat, n: nat)
    requires i < |s| && n <= |s|
  {
    && (forall k :: 0 < k < n && (k - 1) / 2 != i ==> Below(s, k))
    && (forall k :: 0 < k < n && i > 0 && (k - 1) / 2 == i ==> s[(i - 1) / 2].distance <= s[k].distance)
  }

  lemma UpStep(s: seq<HashDistance>, j: nat)
    requires 0 < j < |s| && HeapButUp(s, j) && s[j].distance < s[(j - 1) / 2].distance
    ensures HeapButUp(Swap(s, (j - 1) / 2, j), (j - 1) / 2)
  {
    var i := (j - 1) / 2;
    var t := Swap(s, i, j);
    forall k | 0 < k < |t| && k != i
      ensures Below(t, k)
    {
      if k != j { assert Below(s, k); }
    }
    forall k | 0 < k < |t| && i > 0 && (k - 1) / 2 == i
      ensures t[(i - 1) / 2].distance <= t[k].distance
    {
      assert Below(s, i);
      if k != j { assert Below(s, k); }
    }
  }

  lemma DownStep(s: seq<HashDistance>, i: nat, j: nat, n: nat)
    requires i < n <= |s| && j < n && 0 < j && (j - 1) / 2 == i && HeapButDown(s, i, n)
    requires s[j].distance < s[i].distance
    requires forall k :: 0 < k < n && (k - 1) / 2 == i ==> s[j].distance <= s[k].distance
    ensures HeapButDown(Swap(s, i, j), j, n)
  {
    var t := Swap(s, i, j);
    forall k | 0 < k < n && (k - 1) / 2 != j
      ensures Below(t, k)
    {
      if (k - 1) / 2 != i { assert Below(s, k); }
    }
    forall k | 0 < k < n && (k - 1) / 2 == j
      ensures t[i].distance <= t[k].distance
    {
      assert Below(s, k);
    }
  }

  ghost predicate HeapUpTo(s: seq<HashDistance>, n: nat)
    requires n <= |s|
  {
    forall k :: 0 < k < n ==> Below(s, k)
  }

  lemma DownDone(s: seq<HashDistance>, i: nat, n: nat)
    requires i < |s| && n <= |s| && HeapButDown(s, i, n)
    requires forall k :: 0 < k < n && (k - 1) / 2 == i ==> s[i].distance <= s[k].distance
    ensures HeapUpTo(s, n)
  {
    forall k | 0 < k < n
      ensures Below(s, k)
    {
      if (k - 1) / 2 == i { assert s[i].distance <= s[k].distance; }
    }
  }

  lemma SwapRoot(s: seq<HashDistance>)
    requires s != [] && IsHeap(s)
    ensures HeapButDown(Swap(s, 0, |s| - 1), 0, |s| - 1)
  {
    var t, n := Swap(s, 0, |s| - 1), |s| - 1;
    forall k | 0 < k < n && (k - 1) / 2 != 0
      ensures Below(t, k)
    {
      assert Below(s, k);
    }
  }

  /** The smaller child of `i` among the first `n`, the left one if they are equal. */
  method SmallerChild(s: seq<HashDistance>, i: nat, n: nat) returns (j: nat)
    requires 2 * i + 1 < n <= |s|
    ensures 0 < j < n && (j - 1) / 2 == i
    ensures forall k :: 0 < k < n && (k - 1) / 2 == i ==> s[j].distance <= s[k].distance
  {
    j := 2 * i + 1;
    if j + 1 < n && s[j + 1].distance < s[j].distance {
      j := j + 1;
    }
    forall k | 0 < k < n && (k - 1) / 2 == i
      ensures s[j].distance <= s[k].distance
    {
      assert k == 2 * i + 1 || k == 2 * i + 2;
    }
  }

  // ---------- permutations keep the ids ----------

  lemma TakeOut<T>(b: seq<T>, k: nat)
    requires k < |b|
    ensures multiset(b) == multiset(b[..k] + b[k + 1..]) + multiset{b[k]}
  {
    assert b == b[..k] + [b[k]] + b[k + 1..];
  }

  lemma TakeOutHash(b: seq<HashDistance>, k: nat)
    requires k < |b|
    ensures multiset(Hashes(b)) == multiset(Hashes(b[..k] + b[k + 1..])) + multiset{b[k].hash}
  {
    TakeOut(Hashes(b), k);
    assert Hashes(b[..k] + b[k + 1..]) == Hashes(b)[..k] + Hashes(b)[k + 1..];
  }

  ghost predicate Measured(s: seq<HashDistance>, metric: Id -> nat) {
    forall k :: 0 <= k < |s| ==> s[k].distance == metric(s[k].hash)
  }

  lemma MeasuredPermuted(a: seq<HashDistance>, b: seq<HashDistance>, metric: Id -> nat)
    requires multiset(a) == multiset(b) && Measured(b, metric)
    ensures Measured(a, metric)
  {
    forall k | 0 <= k < |a|
      ensures a[k].distance == metric(a[k].hash)
    {
      assert a[k] in multiset(b);
    }
  }

  ghost predicate Permuted(a: seq<HashDistance>, b: seq<HashDistance>) {
    multiset(a) == multiset(b) && multiset(Hashes(a)) == multiset(Hashes(b))
  }

  lemma SwapPermutes(s: seq<HashDistance>, i: nat, j: nat)
    requires i < |s| && j < |s|
    ensures Permuted(Swap(s, i, j), s)
  {
    SwapMultiset(s, i, j);
    assert Hashes(Swap(s, i, j)) == Swap(Hashes(s), i, j);
    SwapMultiset(Hashes(s), i, j);
  }

  // ---------- the priority queue ----------

  class DistanceQueue {
    const metric: Id -> nat
    var heap: seq<HashDistance>

    ghost predicate Valid()
      reads this
    {
      IsHeap(heap) && Measured(heap, metric)
    }

    ghost function Contents(): multiset<Id>
      reads this
    {
      multiset(Hashes(heap))
    }

    constructor (center: Id)
      ensures Valid() && Contents() == multiset{}
      ensures metric == XorMetric(center)
    {
      metric := XorMetric(center);
      heap := [];
    }

    method Enqueue(p: Id)
      requires Valid()
      modifies this
      ensures Valid() && Contents() == old(Contents()) + multiset{p}
    {
      heap := heap + [HashDistance(p, metric(p))];
      assert Hashes(heap) == Hashes(old(heap)) + [p];
      assert HeapButUp(heap, |heap| - 1) by {
        forall k | 0 < k < |heap| - 1
          ensures Below(heap, k)
        {
          assert Below(old(heap), k);
        }
      }
      ghost var pushed := heap;
      assert Measured(pushed, metric);
      Up();
      MeasuredPermuted(heap, pushed, metric);
    }

    /** Lets the last element rise past larger parents. */
    method Up()
      requires heap != [] && HeapButUp(heap, |heap| - 1)
      modifies this
      ensures IsHeap(heap) && Permuted(heap, old(heap))
    {
      var j := |heap| - 1;
      while true
        invariant 0 <= j < |heap| && HeapButUp(heap, j) && Permuted(heap, old(heap))
        decreases j
      {
        var i := if j == 0 then 0 else (j - 1) / 2;
        if i == j || !(heap[j].distance < heap[i].distance) {
          break;
        }
        UpStep(heap, j);
        SwapPermutes(heap, i, j);
        heap := Swap(heap, i, j);
        j := i;
      }
    }

    /** Delivers a peer at minimum distance. */
    method Dequeue() returns (p: Id)
      requires Valid() && heap != []
      modifies this
      ensures Valid() && p in old(Contents()) && Contents() == old(Contents()) - multiset{p}
      ensures forall q :: q in old(Contents()) ==> metric(p) <= metric(q)
    {
      RootNearest(heap, metric);
      ghost var was := heap;
      RootLast();
      MeasuredPermuted(heap, was, metric);
      PopLast(heap, metric);
      p := heap[|heap| - 1].hash;
      heap := heap[..|heap| - 1];
    }

    /** Swaps the root to the end and restores the order of the rest. */
    method RootLast()
      requires IsHeap(heap) && heap != []
      modifies this
      ensures heap != [] && heap[|heap| - 1] == old(heap)[0]
      ensures HeapUpTo(heap, |heap| - 1) && Permuted(heap, old(heap))
    {
      var n := |heap| - 1;
      SwapPermutes(heap, 0, n);
      SwapRoot(heap);
      heap := Swap(heap, 0, n);
      Down(n);
    }

    /** Lets the root sink below smaller children among the first `n`. */
    method Down(n: nat)
      requires n < |heap| && HeapButDown(heap, 0, n)
      modifies this
      ensures |heap| == |old(heap)| && HeapUpTo(heap, n) && heap[n] == old(heap)[n]
      ensures Permuted(heap, old(heap))
    {
      var i := 0;
      while true
        invariant i < |heap| && n < |heap| && HeapButDown(heap, i, n)
        invariant |heap| == |old(heap)| && heap[n] == old(heap)[n] && Permuted(heap, old(heap))
        decreases |heap| - i
      {
        if 2 * i + 1 >= n {
          DownDone(heap, i, n);
          break;
        }
        var j := SmallerChild(heap, i, n);
        if !(heap[j].distance < heap[i].distance) {
          DownDone(heap, i, n);
          break;
        }
        DownStep(heap, i, j, n);
        SwapPermutes(heap, i, j);
        heap := Swap(heap, i, j);
        i := j;
      }
    }
  }

  lemma RootNearest(s: seq<HashDistance>, metric: Id -> nat)
    requires IsHeap(s) && Measured(s, metric) && s != []
    ensures forall q :: q in multiset(Hashes(s))
              ==> metric(s[0].hash) <= metric(q)
  {
    forall q | q in multiset(Hashes(s))
      ensures metric(s[0].hash) <= metric(q)
    {
      assert q in Hashes(s);
      var k :| 0 <= k < |s| && Hashes(s)[k] == q;
      RootIsMinimum(s, k);
    }
  }

  /** What is left after the last element is cut off. */
  lemma PopLast(s: seq<HashDistance>, metric: Id -> nat)
    requires s != [] && Measured(s, metric) && HeapUpTo(s, |s| - 1)
    ensures var n := |s| - 1;
            && IsHeap(s[..n]) && Measured(s[..n], metric)
            && s[n].hash in multiset(Hashes(s))
            && multiset(Hashes(s[..n])) == multiset(Hashes(s)) - multiset{s[n].hash}
  {
    var n := |s| - 1;
    TakeOutHash(s, n);
    assert s[..n] + s[n + 1..] == s[..n];
    forall k | 0 < k < n
      ensures Below(s[..n], k)
    {
      assert Below(s, k);
    }
  }

  // ---------- the channel queue ----------

  /** What the select statements see: a peer offered on `EnqChan`, or a receiver ready on `DeqChan`. */
  datatype Event = Offer(peer: Id) | Ask

  /** The peers accepted during `events`. */
  ghost function Accepted(events: seq<Event>): multiset<Id> {
    if events == [] then multiset{}
    else
      var n := |events| - 1;
      Accepted(events[..n]) + (if events[n].Offer? then multiset{events[n].peer} else multiset{})
  }

  ghost predicate NearestOf(p: Id, bag: multiset<Id>, metric: Id -> nat) {
    p in bag && forall q :: q in bag ==> metric(p) <= metric(q)
  }

  /**
   * Reference: an unbounded priority queue. Every offer is taken at once; an ask is
   * answered with a nearest of the peers accepted and not yet delivered, if there is one.
   */
  ghost predicate Served(events: seq<Event>, out: seq<Id>, metric: Id -> nat) {
    if events == [] then out == []
    else
      var n, m := |events| - 1, |out| - 1;
      if events[n].Offer? then Served(events[..n], out, metric)
      else
        || (Accepted(events[..n]) == multiset(out) && Served(events[..n], out, metric))
        || (&& m >= 0
            && Served(events[..n], out[..m], metric)
            && multiset(out[..m]) <= Accepted(events[..n])
            && NearestOf(out[m], Accepted(events[..n]) - multiset(out[..m]), metric))
  }

  lemma AcceptedNext(events: seq<Event>, e: Event)
    ensures Accepted(events + [e])
            == Accepted(events) + (if e.Offer? then multiset{e.peer} else multiset{})
  {
    assert (events + [e])[..|events|] == events;
  }

  lemma ServedOffer(events: seq<Event>, e: Event, out: seq<Id>, metric: Id -> nat)
    requires Served(events, out, metric) && (e.Ask? ==> Accepted(events) == multiset(out))
    ensures Served(events + [e], out, metric)
  {
    assert (events + [e])[..|events|] == events;
  }

  lemma ServedAsk(events: seq<Event>, out: seq<Id>, p: Id, pending: multiset<Id>, metric: Id -> nat)
    requires Served(events, out, metric) && Accepted(events) == multiset(out) + pending
    requires NearestOf(p, pending, metric)
    ensures Served(events + [Ask], out + [p], metric)
  {
    assert (events + [Ask])[..|events|] == events && (out + [p])[..|out|] == out;
    assert Accepted(events) - multiset(out) == pending;
  }

  /** What one channel event does to the peers waiting for delivery. */
  ghost predicate Served1(e: Event, before: multiset<Id>, delivered: seq<Id>, after: multiset<Id>, metric: Id -> nat) {
    match e
    case Offer(p) => delivered == [] && after == before + multiset{p}
    case Ask =>
      if before == multiset{} then delivered == [] && after == before
      else |delivered| == 1 && NearestOf(delivered[0], before, metric) && after == before - multiset{delivered[0]}
  }

  /** The reference was followed, and everything accepted was delivered or is pending, once. */
  ghost predicate Progress(events: seq<Event>, out: seq<Id>, pending: multiset<Id>, metric: Id -> nat) {
    Served(events, out, metric) && Accepted(events) == multiset(out) + pending
  }

  lemma ServedNext(e: Event, events: seq<Event>, out: seq<Id>, delivered: seq<Id>,
                   before: multiset<Id>, after: multiset<Id>, metric: Id -> nat)
    requires Progress(events, out, before, metric)
    requires Served1(e, before, delivered, after, metric)
    ensures Progress(events + [e], out + delivered, after, metric)
  {
    AcceptedNext(events, e);
    if e.Ask? && before != multiset{} {
      ServedDelivery(events, out, delivered[0], before, metric);
      assert delivered == [delivered[0]];
    } else {
      assert out + [] == out;
      ServedOffer(events, e, out, metric);
    }
  }

  lemma ServedDelivery(events: seq<Event>, out: seq<Id>, p: Id, before: multiset<Id>, metric: Id -> nat)
    requires Progress(events, out, before, metric) && NearestOf(p, before, metric)
    ensures Progress(events + [Ask], out + [p], before - multiset{p}, metric)
  {
    AcceptedNext(events, Ask);
    ServedAsk(events, out, p, before, metric);
    assert multiset(out + [p]) + (before - multiset{p}) == multiset(out) + before;
  }

  lemma ProgressWhole(past: seq<Event>, events: seq<Event>, out: seq<Id>, pending: multiset<Id>, metric: Id -> nat)
    requires Progress(past, out, pending, metric) && past == events[..|events|]
    ensures Progress(events, out, pending, metric)
  {
    assert past == events;
  }

  lemma Prefix<T>(s: seq<T>, i: nat)
    requires i < |s|
    ensures s[..i + 1] == s[..i] + [s[i]]
  {
  }

  class ChanQueue {
    const queue: DistanceQueue
    var next: Option<Id>

    constructor (center: Id)
      ensures fresh(queue) && queue.Valid()
      ensures queue.metric == XorMetric(center)
      ensures queue.Contents() == multiset{} && next == None
    {
      queue := new DistanceQueue(center);
      next := None;
    }

    ghost function Held(): multiset<Id>
      reads this
    {
      match next
      case None => multiset{}
      case Some(p) => multiset{p}
    }

    ghost function Pending(): multiset<Id>
      reads this, queue
    {
      queue.Contents() + Held()
    }

    ghost predicate Valid()
      reads this, queue
    {
      queue.Valid() && (next.Some? ==> NearestOf(next.value, Pending(), queue.metric))
    }

    /** The goroutine over any finite run of channel events. */
    method Process(events: seq<Event>) returns (out: seq<Id>)
      requires Valid() && Pending() == multiset{}
      modifies this, queue
      ensures Valid() && Progress(events, out, Pending(), queue.metric)
    {
      ghost var past;
      out, past := Loop(events);
      ProgressWhole(past, events, out, Pending(), queue.metric);
    }

    method Loop(events: seq<Event>) returns (out: seq<Id>, ghost past: seq<Event>)
      requires Valid() && Pending() == multiset{}
      modifies this, queue
      ensures Valid() && past == events[..|events|] && Progress(past, out, Pending(), queue.metric)
    {
      out, past := [], [];
      for i := 0 to |events|
        invariant Valid() && past == events[..i] && Progress(past, out, Pending(), queue.metric)
      {
        out := Pass(events[i], past, out);
        past := past + [events[i]];
        Prefix(events, i);
      }
    }

    method Pass(event: Event, ghost past: seq<Event>, out: seq<Id>) returns (r: seq<Id>)
      requires Valid() && Progress(past, out, Pending(), queue.metric)
      modifies this, queue
      ensures Valid() && Progress(past + [event], r, Pending(), queue.metric)
    {
      ghost var before := Pending();
      var delivered := Select(event);
      ServedNext(event, past, out, delivered, before, Pending(), queue.metric);
      r := out + delivered;
    }

    /** One pass of the loop, up to and including one channel event. */
    method Select(event: Event) returns (delivered: seq<Id>)
      requires Valid()
      modifies this, queue
      ensures Valid() && Served1(event, old(Pending()), delivered, Pending(), queue.metric)
    {
      if next == None && |queue.heap| == 0 {
        delivered := TakeFirst(event);
      } else {
        Refill();
        delivered := Exchange(event);
      }
    }

    /** The first select: with nothing to hand out only an offer can be taken. */
    method TakeFirst(event: Event) returns (delivered: seq<Id>)
      requires Valid() && next == None && queue.heap == []
      modifies this
      ensures Valid() && Served1(event, old(Pending()), delivered, Pending(), queue.metric)
    {
      if event.Offer? {
        next := Some(event.peer);
      }
      return [];
    }

    method Refill()
      requires Valid() && (next == None ==> queue.heap != [])
      modifies this, queue
      ensures Valid() && next.Some? && Pending() == old(Pending())
    {
      if next == None {
        var p := queue.Dequeue();
        next := Some(p);
        assert Pending() == old(Pending());
      }
    }

    /** The second select: take an offer and put `next` back, or hand `next` out. */
    method Exchange(event: Event) returns (delivered: seq<Id>)
      requires queue.Valid() && next.Some?
      modifies this, queue
      ensures queue.Valid() && next == None
      ensures delivered == if event.Ask? then [old(next).value] else []
      ensures Pending() == if event.Ask? then old(Pending()) - multiset{old(next).value}
                           else old(Pending()) + multiset{event.peer}
    {
      match event {
        case Offer(item) =>
          queue.Enqueue(item);
          queue.Enqueue(next.value); // the order may have changed
          next := None;
          delivered := [];
        case Ask =>
          delivered := [next.value];
          next := None;
      }
    }
  }
}
