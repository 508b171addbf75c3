/**
 * Changes that wait for their target (dht.go, action.go, nucleus.go): a change request whose
 * target hash is not in the store is queued and tried again a limited number of times. The
 * queue is a channel of fixed capacity; a send on a full channel waits, first come first
 * served, until a receive makes room, and only the retry task receives.
 */
module Retry {
  import opened StoreHistory

  const MAX_RETRIES := 10

  const CAPACITY := 100

  datatype Waiting = Waiting(msg: Message, retries: nat)

  /** The channel, those waiting to send, and whether the retry loop itself waits among them. */
  datatype Channel = Channel(queue: seq<Waiting>, senders: seq<Waiting>, taskWaits: bool) {
    /** Somebody waits only when the queue is full. */
    predicate Valid() {
      && |queue| <= CAPACITY && (senders != [] ==> |queue| == CAPACITY)
      && (taskWaits ==> senders != [])
    }
  }

  function Send(c: Channel, w: Waiting): Channel {
    if |c.queue| < CAPACITY then c.(queue := c.queue + [w]) else c.(senders := c.senders + [w])
  }

  /** A receive takes the oldest message and lets the first sender in. */
  function Receive(c: Channel): Channel
    requires c.queue != []
  {
    if c.senders == [] then c.(queue := c.queue[1..])
    else c.(queue := c.queue[1..] + [c.senders[0]], senders := c.senders[1..])
  }

  /** One call of `RetryTask`; none begins while an earlier one waits. */
  function Task(c: Channel, found: Message -> bool): Channel {
    if c.queue == [] || c.taskWaits then c
    else
      var r, d := c.queue[0], Receive(c);
      if r.retries == 0 || found(r.msg) then d
      else Send(d, Waiting(r.msg, r.retries - 1)).(taskWaits := |d.queue| == CAPACITY)
  }

  class RetryQueue {
    var c: Channel
    ghost var processed: seq<Message>

    constructor ()
      ensures c == EMPTY && c.Valid() && processed == []
    {
      c, processed := EMPTY, [];
    }

    /** Sends the message to the queue when its target is missing; waits there while the queue is full. */
    method RetryIfHashNotFound(found: bool, m: Message, retries: nat) returns (queued: bool, waits: bool)
      requires c.Valid()
      modifies this
      ensures c.Valid() && processed == old(processed)
      ensures queued <==> !found
      ensures c == if found then old(c) else Send(old(c), Waiting(m, retries))
      ensures waits <==> !found && |old(c).queue| == CAPACITY
    {
      if found { return false, false; }
      var w := Waiting(m, retries);
      if |c.queue| < CAPACITY {
        c := c.(queue := c.queue + [w]);
        return true, false;
      }
      c := c.(senders := c.senders + [w]);
      return true, true;
    }

    /** A request that comes in: it may be tried again `MAX_RETRIES` times. */
    method ActionReceiver(m: Message, found: bool)
      requires c.Valid()
      modifies this
      ensures c.Valid() && processed == old(processed)
      ensures c == if found then old(c) else Send(old(c), Waiting(m, MAX_RETRIES))
    {
      var _, _ := RetryIfHashNotFound(found, m, MAX_RETRIES);
    }

    method RetryTask(found: Message -> bool)
      requires c.Valid()
      modifies this
      ensures c.Valid() && c == Task(old(c), found)
      ensures processed == old(processed) + Tried(old(c))
    {
      if |c.queue| > 0 && !c.taskWaits {
        var r := c.queue[0];
        c := Receive(c);
        if r.retries > 0 {
          processed := processed + [r.msg];
          var _, waits := RetryIfHashNotFound(found(r.msg), r.msg, r.retries - 1);
          c := c.(taskWaits := waits);
        }
      }
    }
  }

  function Tried(c: Channel): seq<Message> {
    if c.queue != [] && !c.taskWaits && c.queue[0].retries > 0 then [c.queue[0].msg] else []
  }

  // ---------- runs of `RetryTask` without new requests; targets may come and go ----------

  function After(c: Channel, founds: seq<Message -> bool>): Channel {
    if founds == [] then c else Task(After(c, founds[..|founds| - 1]), founds[|founds| - 1])
  }

  function AllTried(c: Channel, founds: seq<Message -> bool>): seq<Message> {
    if founds == [] then []
    else AllTried(c, founds[..|founds| - 1]) + Tried(After(c, founds[..|founds| - 1]))
  }

  /** The calls it takes at most to empty the queue. */
  function Work(q: seq<Waiting>): nat {
    if q == [] then 0 else Work(q[..|q| - 1]) + q[|q| - 1].retries + 1
  }

  /** How often a message may still be tried. */
  function Budget(q: seq<Waiting>, m: Message): nat {
    if q == [] then 0 else Budget(q[..|q| - 1], m) + (if q[|q| - 1].msg == m then q[|q| - 1].retries else 0)
  }

  /** Everything that waits, in the order in which it will be received. */
  function Line(c: Channel): seq<Waiting> {
    c.queue + c.senders
  }

  lemma {:induction false} FrontOut(q: seq<Waiting>, m: Message)
    requires q != []
    ensures Work(q) == Work(q[1..]) + q[0].retries + 1
    ensures Budget(q, m) == Budget(q[1..], m) + (if q[0].msg == m then q[0].retries else 0)
  {
    if |q| > 1 {
      FrontOut(q[..|q| - 1], m);
      assert q[1..][..|q| - 2] == q[..|q| - 1][1..];
    }
  }

  /** The first in line leaves, and goes to the end with one try less unless it is found or used up. */
  function NextLine(q: seq<Waiting>, found: Message -> bool): seq<Waiting>
    requires q != []
  {
    if q[0].retries > 0 && !found(q[0].msg) then q[1..] + [Waiting(q[0].msg, q[0].retries - 1)] else q[1..]
  }

  lemma TaskLine(c: Channel, found: Message -> bool)
    requires c.Valid() && c.queue != [] && !c.taskWaits
    ensures Task(c, found).Valid() && Line(Task(c, found)) == NextLine(Line(c), found)
  {
    ReceiveLine(c);
    var r, d := c.queue[0], Receive(c);
    assert Line(c)[0] == r;
    if r.retries > 0 && !found(r.msg) {
      var w := Waiting(r.msg, r.retries - 1);
      assert Line(Send(d, w)) == Line(d) + [w];
    }
  }

  lemma ReceiveLine(c: Channel)
    requires c.Valid() && c.queue != []
    ensures Line(Receive(c)) == Line(c)[1..]
  {
  }

  lemma LineCosts(q: seq<Waiting>, found: Message -> bool, m: Message)
    requires q != []
    ensures Work(NextLine(q, found)) < Work(q)
    ensures !found(q[0].msg) ==> Work(NextLine(q, found)) == Work(q) - 1
    ensures var tried := if q[0].retries > 0 && q[0].msg == m then 1 else 0;
            && Budget(NextLine(q, found), m) + tried <= Budget(q, m)
            && (!found(m) ==> Budget(NextLine(q, found), m) + tried == Budget(q, m))
  {
    FrontOut(q, m);
    if q[0].retries > 0 && !found(q[0].msg) {
      var back := Waiting(q[0].msg, q[0].retries - 1);
      assert (q[1..] + [back])[..|q| - 1] == q[1..];
    }
  }

  // ---------- when the retry loop hangs ----------

  /** Call `i` takes the `i`th message in line, somebody still waits to send, and the message has to go back. */
  predicate Blocked(c: Channel, founds: seq<Message -> bool>, i: nat) {
    i < |founds| && i < |c.senders| && Line(c)[i].retries > 0 && !founds[i](Line(c)[i].msg)
  }

  ghost predicate Hangs(c: Channel, founds: seq<Message -> bool>) {
    exists i :: Blocked(c, founds, i)
  }

  lemma HangsPrefix(c: Channel, founds: seq<Message -> bool>)
    requires founds != []
    ensures var n := |founds| - 1;
            Hangs(c, founds) <==> Hangs(c, founds[..n]) || Blocked(c, founds, n)
  {
    var n := |founds| - 1;
    if i :| Blocked(c, founds[..n], i) { assert Blocked(c, founds, i); }
    if i: nat :| Blocked(c, founds, i) && i < n { assert Blocked(c, founds[..n], i); }
  }

  /** Until that happens every call lets the next sender in and brings the line forward by one. */
  lemma {:induction false} Advance(c: Channel, founds: seq<Message -> bool>)
    requires c.Valid() && !c.taskWaits && !Hangs(c, founds)
    ensures var n, d := |founds|, After(c, founds);
            && d.Valid() && !d.taskWaits
            && |d.senders| == (if n <= |c.senders| then |c.senders| - n else 0)
            && (n <= |Line(c)| ==> Line(c)[n..] <= Line(d))
  {
    if founds == [] {
      assert Line(c)[0..] == Line(c);
    } else {
      var n := |founds| - 1;
      HangsPrefix(c, founds);
      Advance(c, founds[..n]);
      AdvanceOne(c, founds, After(c, founds[..n]));
    }
  }

  lemma AdvanceOne(c: Channel, founds: seq<Message -> bool>, d: Channel)
    requires founds != [] && c.Valid() && d.Valid() && !d.taskWaits && !Blocked(c, founds, |founds| - 1)
    requires var n := |founds| - 1;
             && |d.senders| == (if n <= |c.senders| then |c.senders| - n else 0)
             && (n <= |Line(c)| ==> Line(c)[n..] <= Line(d))
    ensures var n, r := |founds|, Task(d, founds[|founds| - 1]);
            && r.Valid() && !r.taskWaits
            && |r.senders| == (if n <= |c.senders| then |c.senders| - n else 0)
            && (n <= |Line(c)| ==> Line(c)[n..] <= Line(r))
  {
    var n, found := |founds| - 1, founds[|founds| - 1];
    if d.queue != [] {
      TaskLine(d, found);
      if n < |Line(c)| {
        assert Line(d)[0] == Line(c)[n..][0] == Line(c)[n];
        assert Line(c)[n + 1..] == Line(c)[n..][1..] <= Line(d)[1..];
      }
    }
  }

  /** Over any run of calls: the loop waits for ever exactly when one of the calls is blocked. */
  lemma {:induction false} WaitsIffBlocked(c: Channel, founds: seq<Message -> bool>)
    requires c.Valid() && !c.taskWaits
    ensures After(c, founds).Valid()
    ensures After(c, founds).taskWaits <==> Hangs(c, founds)
  {
    if founds != [] {
      var n := |founds| - 1;
      var d := After(c, founds[..n]);
      HangsPrefix(c, founds);
      WaitsIffBlocked(c, founds[..n]);
      if !d.taskWaits {
        Advance(c, founds[..n]);
        if n < |Line(c)| && d.queue != [] { assert Line(d)[0] == Line(c)[n..][0] == Line(c)[n]; }
      }
    }
  }

  // ---------- the queue empties ----------

  /** Unless a call is blocked, every call takes some of the work off the line. */
  lemma {:induction false} WorkFalls(c: Channel, founds: seq<Message -> bool>)
    requires c.Valid() && !c.taskWaits && !Hangs(c, founds)
    ensures Line(After(c, founds)) == [] || Work(Line(After(c, founds))) + |founds| <= Work(Line(c))
    ensures (forall i, m :: 0 <= i < |founds| ==> !founds[i](m)) ==>
              Work(Line(After(c, founds))) == if |founds| <= Work(Line(c)) then Work(Line(c)) - |founds| else 0
  {
    if founds != [] {
      var n := |founds| - 1;
      HangsPrefix(c, founds);
      Advance(c, founds[..n]);
      WorkFalls(c, founds[..n]);
      var d := After(c, founds[..n]);
      if Line(d) != [] {
        TaskLine(d, founds[n]);
        LineCosts(Line(d), founds[n], Line(d)[0].msg);
      }
    }
  }

  lemma WorkPositive(q: seq<Waiting>)
    ensures Work(q) == 0 <==> q == []
  {
  }

  /** After as many calls as there is work the queue is empty if and only if none of them was blocked. */
  lemma EmptiesIffNotBlocked(c: Channel, founds: seq<Message -> bool>)
    requires c.Valid() && !c.taskWaits && |founds| >= Work(Line(c))
    ensures After(c, founds).queue == [] <==> !Hangs(c, founds)
  {
    WaitsIffBlocked(c, founds);
    if !Hangs(c, founds) {
      WorkFalls(c, founds);
      WorkPositive(Line(After(c, founds)));
      assert Line(After(c, founds)) == [];
    }
  }

  /** When no target ever turns up it takes exactly that many calls, or never happens. */
  lemma NeverFoundTakesAll(c: Channel, founds: seq<Message -> bool>)
    requires c.Valid() && !c.taskWaits && forall i, m :: 0 <= i < |founds| ==> !founds[i](m)
    ensures After(c, founds).queue == [] <==> |founds| >= Work(Line(c)) && !Hangs(c, founds)
  {
    WaitsIffBlocked(c, founds);
    if !Hangs(c, founds) {
      var d := After(c, founds);
      WorkFalls(c, founds);
      WorkPositive(Line(d));
      assert d.queue == [] <==> Line(d) == [];
    }
  }

  /** With nobody waiting to send, no call is ever blocked. */
  lemma NobodyWaiting(c: Channel, founds: seq<Message -> bool>)
    requires c.Valid() && c.senders == []
    ensures !Hangs(c, founds) && !After(c, founds).taskWaits
    ensures |founds| >= Work(c.queue) ==> After(c, founds).queue == []
  {
    WaitsIffBlocked(c, founds);
    assert Line(c) == c.queue;
    if |founds| >= Work(c.queue) { EmptiesIffNotBlocked(c, founds); }
  }

  // ---------- targets that are there ----------

  /** The messages that may be tried, in order. */
  function Triable(q: seq<Waiting>): seq<Message> {
    if q == [] then []
    else Triable(q[..|q| - 1]) + (if q[|q| - 1].retries > 0 then [q[|q| - 1].msg] else [])
  }

  /** When every target is there, each call takes one message off the line, tried once and never queued again. */
  lemma {:induction false} FoundIsTriedOnce(c: Channel, founds: seq<Message -> bool>)
    requires c.Valid() && !c.taskWaits && forall i, m :: 0 <= i < |founds| ==> founds[i](m)
    ensures var d, n := After(c, founds), if |founds| < |Line(c)| then |founds| else |Line(c)|;
            d.Valid() && !d.taskWaits && Line(d) == Line(c)[n..] && AllTried(c, founds) == Triable(Line(c)[..n])
  {
    if founds == [] {
      assert Line(c)[0..] == Line(c);
    } else {
      var k := |founds| - 1;
      FoundIsTriedOnce(c, founds[..k]);
      FoundStep(After(c, founds[..k]), Line(c), k, founds[k], AllTried(c, founds[..k]));
    }
  }

  lemma FoundStep(d: Channel, q: seq<Waiting>, k: nat, found: Message -> bool, tried: seq<Message>)
    requires d.Valid() && !d.taskWaits && forall m :: found(m)
    requires var n := if k < |q| then k else |q|; Line(d) == q[n..] && tried == Triable(q[..n])
    ensures var r, n := Task(d, found), if k + 1 < |q| then k + 1 else |q|;
            r.Valid() && !r.taskWaits && Line(r) == q[n..] && tried + Tried(d) == Triable(q[..n])
  {
    if k < |q| {
      assert Line(d)[0] == q[k] && q[..k + 1][..k] == q[..k];
      TaskLine(d, found);
      assert d.senders == [] || d.queue != [];
    } else {
      assert Line(d) == [] && tried + [] == tried;
    }
  }

  // ---------- requests that fill the queue ----------

  const EMPTY := Channel([], [], false)

  /** The channel after requests whose targets are all missing. */
  function Requests(ms: seq<Message>): Channel {
    if ms == [] then EMPTY else Send(Requests(ms[..|ms| - 1]), Waiting(ms[|ms| - 1], MAX_RETRIES))
  }

  lemma {:induction false} RequestsLine(ms: seq<Message>)
    ensures var c := Requests(ms);
            && c.Valid() && !c.taskWaits && |Line(c)| == |ms|
            && forall i :: 0 <= i < |ms| ==> Line(c)[i] == Waiting(ms[i], MAX_RETRIES)
  {
    if ms != [] {
      var before := Requests(ms[..|ms| - 1]);
      RequestsLine(ms[..|ms| - 1]);
      assert Line(Requests(ms)) == Line(before) + [Waiting(ms[|ms| - 1], MAX_RETRIES)];
    }
  }

  /** More requests than the queue holds, and a first call that finds its target missing: the loop is stuck for good. */
  lemma TooManyRequestsHang(ms: seq<Message>, founds: seq<Message -> bool>)
    requires |ms| > CAPACITY && founds != [] && !founds[0](ms[0])
    ensures var c := After(Requests(ms), founds);
            c.taskWaits && |c.queue| == CAPACITY
  {
    var c := Requests(ms);
    RequestsLine(ms);
    assert Blocked(c, founds, 0);
    WaitsIffBlocked(c, founds);
  }

  /** However full the queue, a message is tried again at most as often as its retries allow. */
  lemma {:induction false} TriedWithinBudget(c: Channel, founds: seq<Message -> bool>, m: Message)
    requires c.Valid()
    ensures After(c, founds).Valid()
    ensures Budget(Line(After(c, founds)), m) + multiset(AllTried(c, founds))[m] <= Budget(Line(c), m)
    ensures (forall i :: 0 <= i < |founds| ==> !founds[i](m)) ==>
              Budget(Line(After(c, founds)), m) + multiset(AllTried(c, founds))[m] == Budget(Line(c), m)
  {
    if founds != [] {
      var n := |founds| - 1;
      TriedWithinBudget(c, founds[..n], m);
      var d := After(c, founds[..n]);
      TaskBudget(d, founds[n], m);
      TriedConcat(AllTried(c, founds[..n]), Tried(d), m);
    }
  }

  lemma TaskBudget(c: Channel, found: Message -> bool, m: Message)
    requires c.Valid()
    ensures Task(c, found).Valid()
    ensures Budget(Line(Task(c, found)), m) + multiset(Tried(c))[m] <= Budget(Line(c), m)
    ensures !found(m) ==> Budget(Line(Task(c, found)), m) + multiset(Tried(c))[m] == Budget(Line(c), m)
  {
    if c.queue != [] && !c.taskWaits {
      TaskLine(c, found);
      LineCosts(Line(c), found, m);
    }
  }

  lemma TriedConcat(a: seq<Message>, b: seq<Message>, m: Message)
    ensures multiset(a + b)[m] == multiset(a)[m] + multiset(b)[m]
  {
  }

  lemma OneRequest(m: Message)
    ensures var c := Requests([m]);
            && c.Valid() && c.queue == [Waiting(m, MAX_RETRIES)] && c.senders == [] && Line(c) == c.queue
            && Work(c.queue) == MAX_RETRIES + 1 && Budget(c.queue, m) == MAX_RETRIES
  {
    assert [m][..0] == [] && Requests([]) == EMPTY;
    var q := [Waiting(m, MAX_RETRIES)];
    assert Requests([m]) == Channel(q, [], false);
    assert q[..0] == [] && q + [] == q;
  }

  /** A request that was just queued is tried `MAX_RETRIES` times if its target never arrives, and then dropped. */
  lemma NeverArrives(m: Message, founds: seq<Message -> bool>)
    requires |founds| > MAX_RETRIES && forall i, k :: 0 <= i < |founds| ==> !founds[i](k)
    ensures var c := Requests([m]);
            After(c, founds).queue == [] && multiset(AllTried(c, founds))[m] == MAX_RETRIES
  {
    OneRequest(m);
    UsedUp(Requests([m]), m, founds);
  }

  lemma UsedUp(c: Channel, m: Message, founds: seq<Message -> bool>)
    requires c.Valid() && c.senders == [] && |founds| >= Work(c.queue)
    requires forall i, k :: 0 <= i < |founds| ==> !founds[i](k)
    ensures After(c, founds).queue == [] && multiset(AllTried(c, founds))[m] == Budget(c.queue, m)
  {
    NobodyWaiting(c, founds);
    TriedWithinBudget(c, founds, m);
    var d := After(c, founds);
    assert Line(c) == c.queue && Line(d) == [];
  }
}
