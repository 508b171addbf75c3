/**
 * Pull gossip (gossip.go): a node asks another for the changes after the last one it knows
 * of, puts them into its queue one by one, and then moves its stored index for that node.
 * Any number of nodes ask, answer and change their stores in any interleaving; a node runs
 * one round at a time.
 */
module Gossip {
  import opened StoreHistory
  import opened Dht

  type Peer = string

  datatype Phase =
    | Idle
    | Asked(peer: Peer, yourIdx: nat)
    | Got(peer: Peer, yourIdx: nat, puts: seq<LogPut>, next: nat)

  /** `log` are the messages of the node's own change log; `queued` is what it queued from each peer. */
  datatype Node = Node(log: seq<Message>, cursors: map<Peer, nat>, queued: map<Peer, seq<LogPut>>, phase: Phase)

  type State = map<Peer, Node>

  datatype Step =
    | Change(me: Peer, msg: Message)
    | AddGossiper(me: Peer, peer: Peer)
    | Ask(me: Peer, peer: Peer)
    | Answer(me: Peer)
    | Fail(me: Peer)
    | Enqueue(me: Peer)
    | Finish(me: Peer)

  function Cursor(n: Node, p: Peer): nat {
    if p in n.cursors then n.cursors[p] else 0
  }

  function Queued(n: Node, p: Peer): seq<LogPut> {
    if p in n.queued then n.queued[p] else []
  }

  /** `updateGossiper`: a stored index is never lowered. */
  function Moved(cursors: map<Peer, nat>, p: Peer, idx: nat): map<Peer, nat> {
    if p in cursors && idx < cursors[p] then cursors else cursors[p := idx]
  }

  // ---------- steps ----------

  predicate Enabled(s: State, step: Step) {
    step.me in s &&
    var n := s[step.me];
    match step
    case Change(_, _) => true
    case AddGossiper(me, p) => true
    case Ask(_, _) => n.phase.Idle?
    case Answer(_) => n.phase.Asked? && n.phase.peer in s
    case Fail(_) => n.phase.Asked?
    case Enqueue(_) => n.phase.Got? && n.phase.next < |n.phase.puts|
    case Finish(_) => n.phase.Got? && n.phase.next == |n.phase.puts|
  }

  function NodeAfter(s: State, step: Step): Node
    requires Enabled(s, step)
  {
    var n := s[step.me];
    match step
    case Change(_, m) => n.(log := n.log + [m])
    case AddGossiper(me, p) => if p == me then n else n.(cursors := Moved(n.cursors, p, 0))
    case Ask(_, p) => n.(phase := Asked(p, Cursor(n, p)))
    case Answer(_) =>
      n.(phase := Got(n.phase.peer, n.phase.yourIdx, LogSince(s[n.phase.peer].log, n.phase.yourIdx + 1), 0))
    case Fail(_) => n.(phase := Idle)
    case Enqueue(_) =>
      var p := n.phase.peer;
      n.(queued := n.queued[p := Queued(n, p) + [n.phase.puts[n.phase.next]]],
         phase := n.phase.(next := n.phase.next + 1))
    case Finish(_) =>
      var i := |n.phase.puts| - 1;
      n.(cursors := if i >= 0 then Moved(n.cursors, n.phase.peer, i + n.phase.yourIdx + 1) else n.cursors,
         phase := Idle)
  }

  function After(s: State, step: Step): State
    requires Enabled(s, step)
  {
    s[step.me := NodeAfter(s, step)]
  }

  // ---------- what always holds ----------

  /** Records 1, 2, ... of a log. */
  function Numbered(ms: seq<Message>): seq<LogPut> {
    seq(|ms|, i requires 0 <= i < |ms| => LogPut(i + 1, ms[i]))
  }

  /** How far `n` has got with `p`, counting what it queued in the current round. */
  function Reached(n: Node, p: Peer): nat {
    Cursor(n, p) + (if n.phase.Got? && n.phase.peer == p then n.phase.next else 0)
  }

  /** Everything `n` queued from `p` is the beginning of the log `log` of `p`, once and in order. */
  ghost predicate PairOk(n: Node, p: Peer, log: seq<Message>) {
    && Reached(n, p) <= |log|
    && Queued(n, p) == Numbered(log)[..Reached(n, p)]
    && (n.phase.Asked? && n.phase.peer == p ==> n.phase.yourIdx == Cursor(n, p))
    && (n.phase.Got? && n.phase.peer == p ==>
          && n.phase.yourIdx == Cursor(n, p) && n.phase.next <= |n.phase.puts|
          && n.phase.yourIdx + |n.phase.puts| <= |log|
          && n.phase.puts == Numbered(log)[n.phase.yourIdx..n.phase.yourIdx + |n.phase.puts|])
  }

  /** A peer that is no node of the network has never answered. */
  function LogOf(s: State, p: Peer): seq<Message> {
    if p in s then s[p].log else []
  }

  ghost predicate Inv(s: State) {
    forall a, p :: a in s ==> PairOk(s[a], p, LogOf(s, p))
  }

  lemma LogSinceIsTail(ms: seq<Message>, k: nat)
    requires k <= |ms|
    ensures LogSince(ms, k + 1) == Numbered(ms)[k..]
  {
  }

  lemma PairGrows(n: Node, p: Peer, log: seq<Message>, m: Message)
    requires PairOk(n, p, log)
    ensures PairOk(n, p, log + [m])
  {
    assert Numbered(log + [m]) == Numbered(log) + [LogPut(|log| + 1, m)];
    assert Numbered(log + [m])[..Reached(n, p)] == Numbered(log)[..Reached(n, p)];
    if n.phase.Got? && n.phase.peer == p {
      var y := n.phase.yourIdx;
      assert Numbered(log + [m])[y..y + |n.phase.puts|] == Numbered(log)[y..y + |n.phase.puts|];
    }
  }

  lemma OwnAnswer(s: State, step: Step, p: Peer)
    requires Enabled(s, step) && step.Answer? && PairOk(s[step.me], p, LogOf(s, p))
    ensures PairOk(NodeAfter(s, step), p, LogOf(s, p))
  {
    var n, log := s[step.me], LogOf(s, p);
    if n.phase.peer == p {
      LogSinceIsTail(log, n.phase.yourIdx);
      assert Numbered(log)[n.phase.yourIdx..] == Numbered(log)[n.phase.yourIdx..|log|];
    }
  }

  lemma OwnEnqueue(s: State, step: Step, p: Peer)
    requires Enabled(s, step) && step.Enqueue? && PairOk(s[step.me], p, LogOf(s, p))
    ensures PairOk(NodeAfter(s, step), p, LogOf(s, p))
  {
    var n, log := s[step.me], LogOf(s, p);
    if n.phase.peer == p {
      var k := Reached(n, p);
      assert n.phase.puts[n.phase.next] == Numbered(log)[k];
      assert Numbered(log)[..k + 1] == Numbered(log)[..k] + [Numbered(log)[k]];
    }
  }

  lemma OwnStep(s: State, step: Step, p: Peer)
    requires Enabled(s, step) && !step.Change? && PairOk(s[step.me], p, LogOf(s, p))
    ensures PairOk(NodeAfter(s, step), p, LogOf(s, p))
  {
    if step.Answer? {
      OwnAnswer(s, step, p);
    } else if step.Enqueue? {
      OwnEnqueue(s, step, p);
    }
  }

  lemma StepKeeps(s: State, step: Step)
    requires Inv(s) && Enabled(s, step)
    ensures Inv(After(s, step))
  {
    var s' := After(s, step);
    forall a, p | a in s' ensures PairOk(s'[a], p, LogOf(s', p)) {
      assert PairOk(s[a], p, LogOf(s, p));
      if step.Change? { ChangeKeeps(s, step, a, p); } else { OtherKeeps(s, step, a, p); }
    }
  }

  lemma SameProgress(n: Node, n': Node, p: Peer, log: seq<Message>)
    requires PairOk(n, p, log) && n'.cursors == n.cursors && n'.queued == n.queued && n'.phase == n.phase
    ensures PairOk(n', p, log)
  {
  }

  lemma ChangeKeeps(s: State, step: Step, a: Peer, p: Peer)
    requires Enabled(s, step) && step.Change? && a in s && PairOk(s[a], p, LogOf(s, p))
    ensures PairOk(After(s, step)[a], p, LogOf(After(s, step), p))
  {
    SameProgress(s[a], After(s, step)[a], p, LogOf(s, p));
    if p == step.me { PairGrows(After(s, step)[a], p, LogOf(s, p), step.msg); }
  }

  lemma OtherKeeps(s: State, step: Step, a: Peer, p: Peer)
    requires Enabled(s, step) && !step.Change? && a in s && PairOk(s[a], p, LogOf(s, p))
    ensures PairOk(After(s, step)[a], p, LogOf(After(s, step), p))
  {
    assert LogOf(After(s, step), p) == LogOf(s, p);
    if a == step.me { OwnStep(s, step, p); }
  }

  // ---------- runs ----------

  function Run(s: State, steps: seq<Step>): State
    decreases |steps|
  {
    if steps == [] then s
    else Run(if Enabled(s, steps[0]) then After(s, steps[0]) else s, steps[1..])
  }

  ghost predicate Fresh(s: State) {
    forall a :: a in s ==> s[a].cursors == map[] && s[a].queued == map[] && s[a].phase == Idle
  }

  lemma {:induction false} RunKeeps(s: State, steps: seq<Step>)
    requires Inv(s)
    ensures Inv(Run(s, steps)) && Run(s, steps).Keys == s.Keys
    decreases |steps|
  {
    if steps != [] {
      if Enabled(s, steps[0]) {
        StepKeeps(s, steps[0]);
        RunKeeps(After(s, steps[0]), steps[1..]);
      } else {
        RunKeeps(s, steps[1..]);
      }
    }
  }

  /**
   * In every run, what `a` has queued from `b` is exactly the records 1 to k of the log of `b`,
   * in order and once each, and between rounds k is the index `a` stored for `b`.
   */
  lemma QueuedIsPrefix(s: State, steps: seq<Step>, a: Peer, b: Peer)
    requires Fresh(s) && a in s && b in s
    ensures var r := Run(s, steps);
            && a in r && b in r
            && Reached(r[a], b) <= |r[b].log|
            && |Queued(r[a], b)| == Reached(r[a], b)
            && (forall i :: 0 <= i < Reached(r[a], b) ==> Queued(r[a], b)[i] == LogPut(i + 1, r[b].log[i]))
            && (!r[a].phase.Got? ==> Reached(r[a], b) == Cursor(r[a], b))
  {
    assert Inv(s);
    RunKeeps(s, steps);
    var r := Run(s, steps);
    assert PairOk(r[a], b, LogOf(r, b));
  }

  /** The index the code computes from the position is the index of the last record queued. */
  lemma PositionIsIndex(s: State, a: Peer)
    requires Inv(s) && Enabled(s, Finish(a)) && s[a].phase.puts != []
    ensures var ph := s[a].phase;
            && ph.puts[|ph.puts| - 1].idx == |ph.puts| - 1 + ph.yourIdx + 1
            && Cursor(After(s, Finish(a))[a], ph.peer) == ph.puts[|ph.puts| - 1].idx
            && Cursor(s[a], ph.peer) < Cursor(After(s, Finish(a))[a], ph.peer)
  {
    assert PairOk(s[a], s[a].phase.peer, LogOf(s, s[a].phase.peer));
  }

  /** No step lowers a stored index or takes back what was queued or logged. */
  lemma NothingIsLost(s: State, step: Step, a: Peer, p: Peer)
    requires Inv(s) && Enabled(s, step) && a in s
    ensures var n, n' := s[a], After(s, step)[a];
            && Cursor(n, p) <= Cursor(n', p) && Queued(n, p) <= Queued(n', p) && n.log <= n'.log
            && (p in n.cursors ==> p in n'.cursors)
  {
    assert PairOk(s[a], p, LogOf(s, p));
  }

  /** In every run a gossiper once added stays known. */
  lemma {:induction false} GossiperStays(s: State, steps: seq<Step>, me: Peer, p: Peer)
    requires Inv(s) && me in s && p != me
    ensures me in Run(s, steps)
    ensures p in s[me].cursors || AddGossiper(me, p) in steps ==> p in Run(s, steps)[me].cursors
    decreases |steps|
  {
    if steps != [] {
      var s' := if Enabled(s, steps[0]) then After(s, steps[0]) else s;
      if Enabled(s, steps[0]) {
        StepKeeps(s, steps[0]);
        NothingIsLost(s, steps[0], me, p);
      }
      assert AddGossiper(me, p) in steps ==> steps[0] == AddGossiper(me, p) || AddGossiper(me, p) in steps[1..];
      GossiperStays(s', steps[1..], me, p);
    }
  }

  /** Adding a gossiper stores it, from the start of its log if it was not known, and touches no other. */
  lemma AddedIsStored(s: State, me: Peer, p: Peer)
    requires Enabled(s, AddGossiper(me, p))
    ensures var n, n' := s[me], After(s, AddGossiper(me, p))[me];
            && n' == n.(cursors := n'.cursors)
            && n'.cursors.Keys == n.cursors.Keys + (if p == me then {} else {p})
            && forall q :: q in n'.cursors ==> n'.cursors[q] == Cursor(n, q)
  {
  }

  // ---------- a round that nothing disturbs ----------

  /** The node queues all that it got. */
  function Drained(s: State, a: Peer): State
    requires a in s && s[a].phase.Got?
    decreases |s[a].phase.puts| - s[a].phase.next
  {
    if s[a].phase.next < |s[a].phase.puts| then Drained(After(s, Enqueue(a)), a) else s
  }

  lemma {:induction false} DrainKeeps(s: State, a: Peer)
    requires Inv(s) && a in s && s[a].phase.Got? && s[a].phase.next <= |s[a].phase.puts|
    ensures var r := Drained(s, a);
            && Inv(r) && Enabled(r, Finish(a))
            && r[a].phase == s[a].phase.(next := |s[a].phase.puts|)
            && r[a].cursors == s[a].cursors && r[a].log == s[a].log
            && (forall p :: p != a ==> (p in r <==> p in s) && (p in r ==> r[p] == s[p]))
    decreases |s[a].phase.puts| - s[a].phase.next
  {
    if s[a].phase.next < |s[a].phase.puts| {
      StepKeeps(s, Enqueue(a));
      DrainKeeps(After(s, Enqueue(a)), a);
    }
  }

  /** After an undisturbed round the node has queued the whole log of its peer and knows its index. */
  lemma RoundCatchesUp(s: State, a: Peer, b: Peer)
    requires Inv(s) && a in s && b in s && s[a].phase.Idle?
    ensures var s1 := After(s, Ask(a, b));
            var s2 := After(s1, Answer(a));
            var s3 := Drained(s2, a);
            Enabled(s3, Finish(a)) &&
            var r := After(s3, Finish(a));
            && r[a].phase.Idle? && LogOf(r, b) == s[b].log
            && Cursor(r[a], b) == |s[b].log|
            && Queued(r[a], b) == Numbered(s[b].log)
  {
    AskAndAnswer(s, a, b);
    var s2 := After(After(s, Ask(a, b)), Answer(a));
    DrainKeeps(s2, a);
    var s3 := Drained(s2, a);
    StepKeeps(s3, Finish(a));
    var r := After(s3, Finish(a));
    assert PairOk(r[a], b, LogOf(r, b));
    assert Numbered(s[b].log)[..|s[b].log|] == Numbered(s[b].log);
  }

  lemma AskAndAnswer(s: State, a: Peer, b: Peer)
    requires Inv(s) && a in s && b in s && s[a].phase.Idle?
    ensures Enabled(After(s, Ask(a, b)), Answer(a))
    ensures var s2 := After(After(s, Ask(a, b)), Answer(a));
            && Inv(s2) && LogOf(s2, b) == s[b].log && s2[a].cursors == s[a].cursors
            && s2[a].phase.Got? && s2[a].phase.peer == b && s2[a].phase.yourIdx == Cursor(s[a], b)
            && s2[a].phase.next == 0
            && |s2[a].phase.puts| == |s[b].log| - Cursor(s[a], b)
  {
    StepKeeps(s, Ask(a, b));
    StepKeeps(After(s, Ask(a, b)), Answer(a));
    assert PairOk(s[a], b, LogOf(s, b));
    LogSinceIsTail(s[b].log, Cursor(s[a], b));
  }

  // ---------- the node's side of a round ----------

  class Gossiper {
    const me: Peer
    var cursors: map<Peer, nat>
    var queue: seq<LogPut>

    constructor (me: Peer)
      ensures this.me == me && cursors == map[] && queue == []
    {
      this.me := me;
      cursors, queue := map[], [];
    }

    method GetGossiper(p: Peer) returns (idx: nat)
      ensures idx == if p in cursors then cursors[p] else 0
    {
      return if p in cursors then cursors[p] else 0;
    }

    method UpdateGossiper(p: Peer, newIdx: nat)
      modifies this
      ensures cursors == Moved(old(cursors), p, newIdx) && queue == old(queue)
    {
      var idx := GetGossiper(p);
      if newIdx < idx { return; }
      cursors := cursors[p := newIdx];
    }

    method AddGossiper(p: Peer)
      modifies this
      ensures queue == old(queue)
      ensures cursors == if p == me then old(cursors) else Moved(old(cursors), p, 0)
      ensures p != me ==> p in cursors
    {
      if p == me { return; }
      UpdateGossiper(p, 0);
    }

    /** Takes in an answer: the puts go into the queue, the index is counted from their positions. */
    method QueuePuts(p: Peer, yourIdx: nat, puts: seq<LogPut>)
      modifies this
      ensures queue == old(queue) + puts
      ensures cursors == if puts == [] then old(cursors) else Moved(old(cursors), p, |puts| + yourIdx)
    {
      if |puts| > 0 {
        var idx := 0;
        for i := 0 to |puts|
          invariant queue == old(queue) + puts[..i] && cursors == old(cursors)
          invariant i > 0 ==> idx == i - 1 + yourIdx + 1
        {
          idx := i + yourIdx + 1;
          queue := queue + [puts[i]];
        }
        UpdateGossiper(p, idx);
      }
    }
  }
}
