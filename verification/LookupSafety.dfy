/** What every step of the lookup keeps, and so holds in every run. */
module LookupSafety {
  import opened Collections
  import opened Lookup

  // ---------- adders, replies and stages fit together ----------

  ghost predicate AdderOk(e: Env, s: State, a: Adder)
    requires a in s.adding
  {
    var c := s.adding[a];
    && c.next <= |c.todo|
    && (forall i :: 0 <= i < c.next ==> c.todo[i] == e.self || c.todo[i] in s.stage)
    && (c.busy ==> c.next < |c.todo| && (At(s, c.todo[c.next], Claimed(a)) || At(s, c.todo[c.next], Offered(a))))
    && (match a
        case Caller => s.main == Starting && c.todo == e.starts
        case Worker(p) => At(s, p, Adding) && p in s.reply && s.reply[p] == Closer(c.todo))
  }

  ghost predicate Owned(s: State, p: Peer, a: Adder) {
    && a in s.adding && s.adding[a].busy && s.adding[a].next < |s.adding[a].todo|
    && s.adding[a].todo[s.adding[a].next] == p
  }

  predicate Past(g: Stage) {
    g.Leaving? || g.Returning? || g.Finished?
  }

  function Links(s: State, p: Peer): seq<Peer> {
    if p in s.reply && s.reply[p].Closer? then s.reply[p].peers else []
  }

  ghost predicate AllSeen(e: Env, s: State, ps: seq<Peer>) {
    forall i :: 0 <= i < |ps| ==> ps[i] == e.self || ps[i] in s.stage
  }

  /** What holds of one seen peer. */
  ghost predicate PeerOk(e: Env, s: State, p: Peer)
    requires p in s.stage
  {
    var g := s.stage[p];
    && p != e.self && p in e.world
    && (g.Claimed? || g.Offered? ==> Owned(s, p, g.owner))
    && (p in s.reply <==> g.DialFailed? || g.Adding? || Past(g))
    && (g.Adding? ==> Worker(p) in s.adding)
    && (g.DialFailed? ==> s.reply[p] == NoContact)
    && (Past(g) ==> AllSeen(e, s, Links(s, p)))
    && (g.Dropped? ==> s.closing)
    && (p in s.reply && s.reply[p].Closer? ==> s.reply[p] == e.answer(p))
  }

  ghost predicate Adders(e: Env, s: State) {
    forall a :: a in s.adding ==> AdderOk(e, s, a)
  }

  ghost predicate Peers(e: Env, s: State) {
    && (forall p :: p in s.stage ==> PeerOk(e, s, p))
    && (forall p :: p in s.reply ==> p in s.stage)
  }

  ghost predicate Phase(e: Env, s: State) {
    && (s.main.Starting? <==> s.spawner == NotStarted)
    && (s.main.Starting? <==> Caller in s.adding)
    && (s.main.Starting? ==> forall p :: p in s.stage ==> !Active(s.stage[p]) && !s.stage[p].Finished?)
    && (!s.main.Starting? ==> AllSeen(e, s, e.starts))
    && (s.queueStopped ==> s.closing)
    && (s.spawner == Stopped ==> s.done || s.closing)
    && (s.main == Finishing ==> s.closing)
  }

  ghost predicate Wired(e: Env, s: State) {
    WellFormed(e) && Adders(e, s) && Peers(e, s) && Phase(e, s)
  }

  // Steps that move one adder, and the peer it is adding.

  /** The peer an adder is at, if it has claimed it, belongs to no other adder and to no worker. */
  lemma ItemIsOwn(e: Env, s: State, step: AddStep)
    requires Wired(e, s) && AddEnabled(e, s, step) && !step.Skip?
    ensures var x := Item(s, step.a);
            if step.Claim? then x !in s.stage && x != e.self && x in e.world
            else At(s, x, Claimed(step.a)) || At(s, x, Offered(step.a))
    ensures Item(s, step.a) !in s.reply
  {
    var a := step.a;
    assert AdderOk(e, s, a);
    if step.Claim? {
      if a.Worker? { assert PeerOk(e, s, a.peer); }
    } else {
      assert PeerOk(e, s, Item(s, a));
    }
  }

  /** An adder is not affected when its own list, its own peers and the workers that add stay as they are. */
  lemma AdderFrame(e: Env, s: State, t: State, b: Adder)
    requires b in s.adding && b in t.adding && t.adding[b] == s.adding[b] && AdderOk(e, s, b)
    requires t.main == s.main && s.stage.Keys <= t.stage.Keys
    requires forall q :: q in s.reply ==> q in t.reply && t.reply[q] == s.reply[q]
    requires forall q :: q in s.stage && s.stage[q] in {Claimed(b), Offered(b)} ==> t.stage[q] == s.stage[q]
    requires b.Worker? && b.peer in s.stage ==> t.stage[b.peer] == s.stage[b.peer]
    ensures AdderOk(e, t, b)
  {
  }

  lemma OtherAdderKept(e: Env, s: State, step: AddStep, b: Adder)
    requires Wired(e, s) && AddEnabled(e, s, step) && b in s.adding && b != step.a
    ensures AdderOk(e, AddAfter(e, s, step), b)
  {
    assert AdderOk(e, s, b);
    if !step.Skip? { ItemIsOwn(e, s, step); }
    AdderFrame(e, s, AddAfter(e, s, step), b);
  }

  lemma OwnAdderKept(e: Env, s: State, step: AddStep)
    requires Wired(e, s) && AddEnabled(e, s, step)
    ensures AdderOk(e, AddAfter(e, s, step), step.a)
  {
    assert AdderOk(e, s, step.a);
    if !step.Skip? { ItemIsOwn(e, s, step); }
  }

  lemma AddAdders(e: Env, s: State, step: AddStep)
    requires Wired(e, s) && AddEnabled(e, s, step)
    ensures Adders(e, AddAfter(e, s, step))
  {
    var t := AddAfter(e, s, step);
    forall b | b in t.adding
      ensures AdderOk(e, t, b)
    {
      if b == step.a { OwnAdderKept(e, s, step); } else { OtherAdderKept(e, s, step, b); }
    }
  }

  lemma OtherPeerKept(e: Env, s: State, step: AddStep, p: Peer)
    requires Wired(e, s) && AddEnabled(e, s, step) && p in s.stage && (step.Skip? || p != Item(s, step.a))
    ensures PeerOk(e, AddAfter(e, s, step), p)
  {
    assert PeerOk(e, s, p);
  }

  lemma ItemKept(e: Env, s: State, step: AddStep)
    requires Wired(e, s) && AddEnabled(e, s, step) && !step.Skip?
    ensures PeerOk(e, AddAfter(e, s, step), Item(s, step.a))
  {
    ItemIsOwn(e, s, step);
    if !step.Claim? { assert PeerOk(e, s, Item(s, step.a)); }
  }

  lemma AddPeers(e: Env, s: State, step: AddStep)
    requires Wired(e, s) && AddEnabled(e, s, step)
    ensures Peers(e, AddAfter(e, s, step))
  {
    var t := AddAfter(e, s, step);
    forall p | p in t.stage
      ensures PeerOk(e, t, p)
    {
      if step.Skip? || p != Item(s, step.a) { OtherPeerKept(e, s, step, p); } else { ItemKept(e, s, step); }
    }
  }

  /** Steps that change neither stages nor replies nor adders. */
  ghost predicate SamePeers(s: State, t: State) {
    && t.stage == s.stage && t.reply == s.reply && t.adding == s.adding
    && (t.main.Starting? <==> s.main.Starting?) && (s.closing ==> t.closing)
  }

  lemma SamePeersKept(e: Env, s: State, t: State)
    requires Adders(e, s) && Peers(e, s) && SamePeers(s, t)
    ensures Adders(e, t) && Peers(e, t)
  {
    forall b | b in t.adding
      ensures AdderOk(e, t, b)
    {
      assert AdderOk(e, s, b);
    }
    forall p | p in t.stage
      ensures PeerOk(e, t, p)
    {
      assert PeerOk(e, s, p);
    }
  }

  /** Steps that change the stage of one peer that is not being added, and move no adder. */
  ghost predicate OnePeer(s: State, t: State, p: Peer) {
    && p in s.stage && p in t.stage
    && t.stage == s.stage[p := t.stage[p]]
    && (t.reply == s.reply || (p !in s.reply && p in t.reply && t.reply == s.reply[p := t.reply[p]]))
    && !s.stage[p].Claimed? && !s.stage[p].Offered?
    && (t.adding == s.adding
        || t.adding == s.adding - {Worker(p)}
        || (Worker(p) in t.adding && t.adding == s.adding[Worker(p) := t.adding[Worker(p)]]))
    && (Worker(p) in s.adding ==> !s.adding[Worker(p)].busy)
    && t.main == s.main && t.closing == s.closing
  }

  lemma OtherAdder(e: Env, s: State, t: State, p: Peer, b: Adder)
    requires Adders(e, s) && OnePeer(s, t, p) && b in t.adding && b != Worker(p)
    ensures AdderOk(e, t, b)
  {
    assert AdderOk(e, s, b);
    AdderFrame(e, s, t, b);
  }

  lemma OnePeerAdders(e: Env, s: State, t: State, p: Peer)
    requires Adders(e, s) && OnePeer(s, t, p)
    requires Worker(p) in t.adding ==> AdderOk(e, t, Worker(p))
    ensures Adders(e, t)
  {
    forall b | b in t.adding
      ensures AdderOk(e, t, b)
    {
      if b != Worker(p) { OtherAdder(e, s, t, p, b); }
    }
  }

  lemma OnePeerPeers(e: Env, s: State, t: State, p: Peer)
    requires Peers(e, s) && OnePeer(s, t, p) && PeerOk(e, t, p)
    ensures Peers(e, t)
  {
    forall q | q in t.stage
      ensures PeerOk(e, t, q)
    {
      if q != p { assert PeerOk(e, s, q); }
    }
  }

  lemma NotAdding(e: Env, s: State, p: Peer)
    requires Wired(e, s) && p in s.stage
    ensures Worker(p) in s.adding <==> s.stage[p].Adding?
    ensures Active(s.stage[p]) ==> !s.main.Starting?
    ensures PeerOk(e, s, p)
  {
    assert PeerOk(e, s, p);
    if Worker(p) in s.adding { assert AdderOk(e, s, Worker(p)); }
  }

  /** A worker's step: only the peer's own stage and reply have to be looked at. */
  lemma WorkerStep(e: Env, s: State, t: State, p: Peer)
    requires Wired(e, s) && OnePeer(s, t, p) && !s.main.Starting?
    requires PeerOk(e, t, p) && (Worker(p) in t.adding ==> AdderOk(e, t, Worker(p)))
    requires t.spawner == s.spawner || t.spawner == Idle
    requires t.queueStopped == s.queueStopped && (s.done ==> t.done) && (Caller in t.adding <==> Caller in s.adding)
    ensures Wired(e, t)
  {
    OnePeerAdders(e, s, t, p);
    OnePeerPeers(e, s, t, p);
  }

  /** A worker starts or ends its own list. */
  lemma WorkAdding(e: Env, s: State, step: WorkStep)
    requires WorkEnabled(e, s, step)
    ensures var p, t := step.p, WorkAfter(e, s, step);
            || t.adding == s.adding
            || t.adding == s.adding - {Worker(p)}
            || (Worker(p) in t.adding && t.adding == s.adding[Worker(p) := t.adding[Worker(p)]])
    ensures forall a :: a != Worker(step.p) ==>
              && (a in WorkAfter(e, s, step).adding <==> a in s.adding)
              && (a in s.adding ==> WorkAfter(e, s, step).adding[a] == s.adding[a])
  {
  }

  lemma WorkOnePeer(e: Env, s: State, step: WorkStep)
    requires Wired(e, s) && WorkEnabled(e, s, step)
    ensures OnePeer(s, WorkAfter(e, s, step), step.p) && !s.main.Starting?
  {
    NotAdding(e, s, step.p);
    WorkAdding(e, s, step);
  }

  /** The reply is there as soon as the attempt is over. */
  lemma WorkReplyOk(e: Env, s: State, step: WorkStep)
    requires Wired(e, s) && WorkEnabled(e, s, step)
    ensures var t, p, g := WorkAfter(e, s, step), step.p, NextStage(e, s, step);
            && (p in t.reply <==> g.DialFailed? || g.Adding? || Past(g))
            && (g.DialFailed? ==> t.reply[p] == NoContact)
            && (p in t.reply && t.reply[p].Closer? ==> t.reply[p] == e.answer(p))
            && (g.Adding? ==> Worker(p) in t.adding)
  {
    NotAdding(e, s, step.p);
  }

  /** A worker leaves only when all it was told about has been seen. */
  lemma WorkLinksOk(e: Env, s: State, step: WorkStep)
    requires Wired(e, s) && WorkEnabled(e, s, step) && Past(NextStage(e, s, step))
    ensures AllSeen(e, WorkAfter(e, s, step), Links(WorkAfter(e, s, step), step.p))
  {
    NotAdding(e, s, step.p);
    if step.AllAdded? { assert AdderOk(e, s, Worker(step.p)); }
  }

  lemma WorkPeerOk(e: Env, s: State, step: WorkStep)
    requires Wired(e, s) && WorkEnabled(e, s, step)
    ensures PeerOk(e, WorkAfter(e, s, step), step.p)
  {
    NotAdding(e, s, step.p);
    WorkReplyOk(e, s, step);
    if Past(NextStage(e, s, step)) { WorkLinksOk(e, s, step); }
  }

  lemma WorkAdderOk(e: Env, s: State, step: WorkStep)
    requires Wired(e, s) && WorkEnabled(e, s, step) && Worker(step.p) in WorkAfter(e, s, step).adding
    ensures AdderOk(e, WorkAfter(e, s, step), Worker(step.p))
  {
    NotAdding(e, s, step.p);
  }

  lemma WorkWired(e: Env, s: State, step: WorkStep)
    requires Wired(e, s) && WorkEnabled(e, s, step)
    ensures Wired(e, WorkAfter(e, s, step))
  {
    var t := WorkAfter(e, s, step);
    WorkOnePeer(e, s, step);
    WorkPeerOk(e, s, step);
    if Worker(step.p) in t.adding { WorkAdderOk(e, s, step); }
    WorkerStep(e, s, t, step.p);
  }

  lemma OnlyCaller(e: Env, s: State)
    requires Wired(e, s) && s.main.Starting?
    ensures forall b :: b in s.adding ==> b == Caller
  {
    forall b | b in s.adding
      ensures b == Caller
    {
      assert AdderOk(e, s, b);
      if b.Worker? { NotAdding(e, s, b.peer); }
    }
  }

  lemma BeginWired(e: Env, s: State)
    requires Wired(e, s) && ControlEnabled(s, Begin)
    ensures Wired(e, ControlAfter(s, Begin))
  {
    var t := ControlAfter(s, Begin);
    assert AdderOk(e, s, Caller);
    OnlyCaller(e, s);
    forall p | p in t.stage
      ensures PeerOk(e, t, p)
    {
      assert PeerOk(e, s, p);
    }
  }

  lemma AddPhase(e: Env, s: State, step: AddStep)
    requires Phase(e, s) && AddEnabled(e, s, step)
    ensures Phase(e, AddAfter(e, s, step))
  {
  }

  lemma AddWired(e: Env, s: State, step: AddStep)
    requires Wired(e, s) && AddEnabled(e, s, step)
    ensures Wired(e, AddAfter(e, s, step))
  {
    AddPhase(e, s, step);
    AddAdders(e, s, step);
    AddPeers(e, s, step);
  }

  lemma ControlWired(e: Env, s: State, step: ControlStep)
    requires Wired(e, s) && ControlEnabled(s, step)
    ensures Wired(e, ControlAfter(s, step))
  {
    if step == Begin {
      BeginWired(e, s);
    } else {
      ControlSame(s, step);
      SamePeersKept(e, s, ControlAfter(s, step));
      ControlPhase(e, s, step);
    }
  }

  lemma ControlSame(s: State, step: ControlStep)
    requires ControlEnabled(s, step) && step != Begin
    ensures SamePeers(s, ControlAfter(s, step))
  {
  }

  lemma ControlPhase(e: Env, s: State, step: ControlStep)
    requires Phase(e, s) && ControlEnabled(s, step) && step != Begin
    ensures Phase(e, ControlAfter(s, step))
  {
  }

  lemma StepWired(e: Env, s: State, step: Step)
    requires Wired(e, s) && Enabled(e, s, step)
    ensures Wired(e, After(e, s, step))
  {
    match step
    case Add(x) => AddWired(e, s, x);
    case Work(x) => WorkWired(e, s, x);
    case Control(x) => ControlWired(e, s, x);
  }

  // ---------- counting peers by stage ----------

  ghost function Pick(m: map<Peer, Stage>, f: Stage -> bool): set<Peer> {
    set p | p in m && f(m[p])
  }

  lemma PickUpdate(m: map<Peer, Stage>, p: Peer, g: Stage, f: Stage -> bool)
    ensures |Pick(m[p := g], f)| == |Pick(m, f)| - (if p in m && f(m[p]) then 1 else 0) + (if f(g) then 1 else 0)
  {
    var rest := Pick(m, f) - {p};
    assert Pick(m[p := g], f) == if f(g) then rest + {p} else rest;
    assert Pick(m, f) == if p in m && f(m[p]) then rest + {p} else rest;
  }

  /** Counted by `peersRemaining`. */
  predicate Counted(g: Stage) {
    !g.Claimed? && !g.Returning? && !g.Finished?
  }

  ghost predicate CountOk(e: Env, s: State) {
    && s.count == |Pick(s.stage, Counted)|
    && (s.done ==> !s.main.Starting? && forall p :: p in s.stage ==> s.stage[p].Returning? || s.stage[p].Finished?)
    && (!s.done && s.count == 0 ==> forall p :: p in s.stage ==> !s.stage[p].Returning? && !s.stage[p].Finished?)
    && (s.closing && !s.early ==> s.done)
    && (s.early ==> s.closing)
    && (s.main == Finishing ==> s.done)
  }

  ghost predicate TokensOk(e: Env, s: State) {
    && s.tokens >= 0 && 0 <= s.lost <= 1
    && (s.lost == 1 ==> s.spawner == Stopped)
    && s.tokens + (if s.spawner == HasToken then 1 else 0) + s.lost + |Pick(s.stage, HoldsToken)| == e.concurrency
  }

  // ---------- tokens ----------

  lemma AddTokens(e: Env, s: State, step: AddStep)
    requires TokensOk(e, s) && AddEnabled(e, s, step)
    ensures TokensOk(e, AddAfter(e, s, step))
  {
    if !step.Skip? { PickUpdate(s.stage, Item(s, step.a), HandedTo(step), HoldsToken); }
  }

  /** The token of a peer that goes from its stage to `g`. */
  lemma Carried(e: Env, s: State, t: State, p: Peer, g: Stage)
    requires TokensOk(e, s) && p in s.stage && t.stage == s.stage[p := g] && t.tokens >= 0
    requires t.lost == s.lost && (s.spawner == Stopped <==> t.spawner == Stopped)
    requires t.tokens + (if t.spawner == HasToken then 1 else 0) + (if HoldsToken(g) then 1 else 0)
             == s.tokens + (if s.spawner == HasToken then 1 else 0) + (if HoldsToken(s.stage[p]) then 1 else 0)
    ensures TokensOk(e, t)
  {
    PickUpdate(s.stage, p, g, HoldsToken);
  }

  /** A worker holds a token exactly in the stages that say so. */
  lemma TokenBalance(e: Env, s: State, step: WorkStep)
    requires WorkEnabled(e, s, step) && step.p in s.stage
    ensures TokenChange(e, step) + (if HoldsToken(NextStage(e, s, step)) then 1 else 0)
            == (if step.Spawn? then 1 else 0) + (if HoldsToken(s.stage[step.p]) then 1 else 0)
    ensures step.Retake? ==> s.tokens > 0
    ensures step.Spawn? ==> s.spawner == HasToken
  {
  }

  lemma WorkTokens(e: Env, s: State, step: WorkStep)
    requires TokensOk(e, s) && WorkEnabled(e, s, step)
    ensures TokensOk(e, WorkAfter(e, s, step))
  {
    var t := WorkAfter(e, s, step);
    TokenBalance(e, s, step);
    Carried(e, s, t, step.p, NextStage(e, s, step));
  }

  lemma ControlTokens(e: Env, s: State, step: ControlStep)
    requires TokensOk(e, s) && ControlEnabled(s, step)
    ensures TokensOk(e, ControlAfter(s, step))
  {
  }

  lemma StepTokens(e: Env, s: State, step: Step)
    requires TokensOk(e, s) && Enabled(e, s, step)
    ensures TokensOk(e, After(e, s, step))
  {
    match step
    case Add(x) => AddTokens(e, s, x);
    case Work(x) => WorkTokens(e, s, x);
    case Control(x) => ControlTokens(e, s, x);
  }

  // ---------- peersRemaining ----------

  lemma AddCount(e: Env, s: State, step: AddStep)
    requires Wired(e, s) && CountOk(e, s) && AddEnabled(e, s, step)
    ensures CountOk(e, AddAfter(e, s, step))
  {
    NotDoneWhileAdding(e, s, step.a);
    if !step.Skip? { PickUpdate(s.stage, Item(s, step.a), HandedTo(step), Counted); }
  }

  lemma NotDoneWhileAdding(e: Env, s: State, a: Adder)
    requires Wired(e, s) && CountOk(e, s) && a in s.adding
    ensures !s.done
  {
    assert AdderOk(e, s, a);
  }

  /** A peer that stays counted, or stays uncounted, through its change of stage. */
  lemma SameCount(e: Env, s: State, t: State, p: Peer, g: Stage)
    requires CountOk(e, s) && p in s.stage && t.stage == s.stage[p := g]
    requires Counted(s.stage[p]) == Counted(g)
             && (s.stage[p].Returning? || s.stage[p].Finished? || !(g.Returning? || g.Finished?))
    requires s.done ==> g.Returning? || g.Finished?
    requires t.count == s.count && t.done == s.done && t.closing == s.closing && t.early == s.early && t.main == s.main
    ensures CountOk(e, t)
  {
    PickUpdate(s.stage, p, g, Counted);
  }

  lemma CountOffCount(e: Env, s: State, p: Peer)
    requires Wired(e, s) && CountOk(e, s) && At(s, p, Leaving)
    ensures CountOk(e, WorkAfter(e, s, CountOff(p)))
  {
    var t := WorkAfter(e, s, CountOff(p));
    PickUpdate(s.stage, p, Returning, Counted);
    NotAdding(e, s, p);
    if t.count == 0 {
      forall q | q in t.stage
        ensures t.stage[q].Returning? || t.stage[q].Finished?
      {
        assert q !in Pick(t.stage, Counted);
        if t.stage[q].Claimed? {
          ClaimerStays(e, s, p, q);
        }
      }
    }
  }

  /** Whoever claims a peer during the search is a worker that is still counted. */
  lemma ClaimerCounted(e: Env, s: State, q: Peer)
    requires Wired(e, s) && !s.main.Starting? && q in s.stage && s.stage[q].Claimed?
    ensures s.stage[q].owner.Worker?
    ensures var w := s.stage[q].owner.peer; At(s, w, Adding)
  {
    assert PeerOk(e, s, q);
    assert AdderOk(e, s, s.stage[q].owner);
  }

  lemma ClaimerStays(e: Env, s: State, p: Peer, q: Peer)
    requires Wired(e, s) && !s.main.Starting? && At(s, p, Leaving) && q in s.stage && s.stage[q].Claimed?
    ensures s.stage[q].owner.Worker? && s.stage[q].owner.peer in Pick(s.stage[p := Returning], Counted)
  {
    ClaimerCounted(e, s, q);
  }

  lemma WorkCount(e: Env, s: State, step: WorkStep)
    requires Wired(e, s) && CountOk(e, s) && WorkEnabled(e, s, step)
    ensures CountOk(e, WorkAfter(e, s, step))
  {
    if step.CountOff? {
      CountOffCount(e, s, step.p);
    } else {
      SameCount(e, s, WorkAfter(e, s, step), step.p, NextStage(e, s, step));
    }
  }

  lemma ControlCount(e: Env, s: State, step: ControlStep)
    requires Wired(e, s) && CountOk(e, s) && ControlEnabled(s, step)
    ensures CountOk(e, ControlAfter(s, step))
  {
  }

  lemma StepCount(e: Env, s: State, step: Step)
    requires Wired(e, s) && CountOk(e, s) && Enabled(e, s, step)
    ensures CountOk(e, After(e, s, step))
  {
    match step
    case Add(x) => AddCount(e, s, x);
    case Work(x) => WorkCount(e, s, x);
    case Control(x) => ControlCount(e, s, x);
  }

  // ---------- nothing is seen that need not be ----------

  /** `ps` holds the start peers and whatever peers in it were told about, ourselves apart. */
  ghost predicate Closed(e: Env, reply: map<Peer, Answer>, ps: set<Peer>) {
    && (forall i :: 0 <= i < |e.starts| ==> e.starts[i] == e.self || e.starts[i] in ps)
    && (forall p, i :: p in ps && p in reply && reply[p].Closer? && 0 <= i < |reply[p].peers|
          ==> reply[p].peers[i] == e.self || reply[p].peers[i] in ps)
  }

  ghost predicate Needed(e: Env, s: State) {
    forall ps :: Closed(e, s.reply, ps) ==> s.stage.Keys <= ps
  }

  lemma StepNeeded(e: Env, s: State, step: Step)
    requires Wired(e, s) && Needed(e, s) && Enabled(e, s, step)
    ensures Needed(e, After(e, s, step))
  {
    match step
    case Add(x) => AddNeeded(e, s, x);
    case Work(x) =>
      NotAdding(e, s, x.p);
      WorkReplies(e, s, x);
      GrownNeeded(e, s, WorkAfter(e, s, x));
    case Control(x) =>
      GrownNeeded(e, s, ControlAfter(s, x));
  }

  lemma GrownNeeded(e: Env, s: State, t: State)
    requires Needed(e, s) && t.stage.Keys == s.stage.Keys
    requires forall p :: p in s.reply ==> p in t.reply && t.reply[p] == s.reply[p]
    ensures Needed(e, t)
  {
    forall ps | Closed(e, t.reply, ps)
      ensures t.stage.Keys <= ps
    {
      assert Closed(e, s.reply, ps);
    }
  }

  lemma AddNeeded(e: Env, s: State, step: AddStep)
    requires Wired(e, s) && Needed(e, s) && AddEnabled(e, s, step)
    ensures Needed(e, AddAfter(e, s, step))
  {
    var t := AddAfter(e, s, step);
    if step.Claim? {
      ClaimNeeded(e, s, step.a);
    } else {
      assert t.stage.Keys == s.stage.Keys;
      GrownNeeded(e, s, t);
    }
  }

  lemma ClaimNeeded(e: Env, s: State, a: Adder)
    requires Wired(e, s) && Needed(e, s) && AddEnabled(e, s, Claim(a))
    ensures Needed(e, AddAfter(e, s, Claim(a)))
  {
    var t := AddAfter(e, s, Claim(a));
    assert AdderOk(e, s, a);
    assert t.stage.Keys == s.stage.Keys + {Item(s, a)};
    forall ps | Closed(e, t.reply, ps)
      ensures t.stage.Keys <= ps
    {
      assert Closed(e, s.reply, ps);
      assert a.Worker? ==> a.peer in ps;
    }
  }

  lemma WorkReplies(e: Env, s: State, step: WorkStep)
    requires WorkEnabled(e, s, step) && (step.p in s.reply ==> !step.AskEnd? && !step.DialEnd?)
    ensures var t := WorkAfter(e, s, step);
            && t.stage.Keys == s.stage.Keys
            && forall p :: p in s.reply ==> p in t.reply && t.reply[p] == s.reply[p]
  {
    assert step.p in s.reply ==> WorkAfter(e, s, step).reply == s.reply;
  }

  // ---------- the logs ----------

  lemma ListsMore(log: seq<Peer>, ps: set<Peer>, p: Peer)
    requires Lists(log, ps) && p !in ps
    ensures Lists(log + [p], ps + {p})
  {
  }

  predicate Attempted(g: Stage) {
    Active(g) || g.Finished?
  }

  function Asked(s: State): set<Peer> {
    set p | p in s.stage && (s.stage[p].Asking? || (p in s.reply && s.reply[p] != NoContact))
  }

  function FailedPeers(s: State): set<Peer> {
    set p | p in s.reply && (s.reply[p] == NoContact || s.reply[p] == Failed)
  }

  /** Every worker is spawned once, every peer asked at most once, every failure recorded once. */
  ghost predicate Logged(e: Env, s: State) {
    && Lists(s.started, Pick(s.stage, Attempted))
    && Lists(s.asked, Asked(s))
    && Lists(s.errs, FailedPeers(s))
  }

  /** Unless closing came first, every reply is what the peer's attempt gives. */
  ghost predicate Honest(e: Env, s: State) {
    !s.early ==> forall p :: p in s.reply ==> s.reply[p] == Attempt(e, p)
  }

  /** The peer being added has nothing to log yet. */
  lemma ItemNotLogged(e: Env, s: State, step: AddStep)
    requires Wired(e, s) && AddEnabled(e, s, step) && !step.Skip?
    ensures var x := Item(s, step.a);
            x !in s.reply && (x in s.stage ==> !Attempted(s.stage[x])) && !Attempted(HandedTo(step))
  {
    ItemIsOwn(e, s, step);
  }

  lemma AddLogged(e: Env, s: State, step: AddStep)
    requires Wired(e, s) && Logged(e, s) && AddEnabled(e, s, step)
    ensures Logged(e, AddAfter(e, s, step))
  {
    var t := AddAfter(e, s, step);
    if step.Skip? {
      SameLogged(e, s, t);
    } else {
      ItemNotLogged(e, s, step);
      NotLogged(e, s, t, Item(s, step.a), HandedTo(step));
    }
  }

  lemma SameLogged(e: Env, s: State, t: State)
    requires Logged(e, s) && t.stage == s.stage && t.reply == s.reply
    requires t.started == s.started && t.asked == s.asked && t.errs == s.errs
    ensures Logged(e, t)
  {
  }

  lemma NotLogged(e: Env, s: State, t: State, x: Peer, g: Stage)
    requires Logged(e, s) && t.stage == s.stage[x := g] && t.reply == s.reply && x !in s.reply
    requires !Attempted(g) && (x in s.stage ==> !Attempted(s.stage[x]))
    requires t.started == s.started && t.asked == s.asked && t.errs == s.errs
    ensures Logged(e, t)
  {
    assert Pick(t.stage, Attempted) == Pick(s.stage, Attempted);
    assert Asked(t) == Asked(s);
  }

  predicate AskedAt(s: State, p: Peer) {
    p in s.stage && (s.stage[p].Asking? || (p in s.reply && s.reply[p] != NoContact))
  }

  predicate FailedAt(s: State, p: Peer) {
    p in s.reply && (s.reply[p] == NoContact || s.reply[p] == Failed)
  }

  /** A log grows exactly when the fact it records becomes true of the peer. */
  ghost predicate Recorded(before: bool, after: bool, log: seq<Peer>, log': seq<Peer>, p: Peer) {
    if after == before then log' == log else after && log' == log + [p]
  }

  lemma ListsRecorded(log: seq<Peer>, log': seq<Peer>, ps: set<Peer>, ps': set<Peer>, p: Peer)
    requires Lists(log, ps) && Recorded(p in ps, p in ps', log, log', p)
    requires forall q :: q != p ==> (q in ps' <==> q in ps)
    ensures Lists(log', ps')
  {
    if (p in ps) == (p in ps') {
      assert ps' == ps;
    } else {
      assert ps' == ps + {p};
      ListsMore(log, ps, p);
    }
  }

  ghost predicate AllRecorded(s: State, t: State, p: Peer) {
    && p in s.stage && p in t.stage
    && Recorded(Attempted(s.stage[p]), Attempted(t.stage[p]), s.started, t.started, p)
    && Recorded(AskedAt(s, p), AskedAt(t, p), s.asked, t.asked, p)
    && Recorded(FailedAt(s, p), FailedAt(t, p), s.errs, t.errs, p)
  }

  lemma WorkRecords(e: Env, s: State, step: WorkStep)
    requires WorkEnabled(e, s, step) && PeerOk(e, s, step.p) && !e.answer(step.p).NoContact?
    ensures AllRecorded(s, WorkAfter(e, s, step), step.p)
  {
  }

  lemma OthersLogged(s: State, t: State, p: Peer)
    requires p in s.stage && p in t.stage && t.stage == s.stage[p := t.stage[p]]
    requires t.reply == s.reply || (p in t.reply && t.reply == s.reply[p := t.reply[p]])
    ensures forall q :: q != p ==> (q in Pick(t.stage, Attempted) <==> q in Pick(s.stage, Attempted))
    ensures forall q :: q != p ==> (q in Asked(t) <==> q in Asked(s))
    ensures forall q :: q != p ==> (q in FailedPeers(t) <==> q in FailedPeers(s))
  {
  }

  lemma WorkLogged(e: Env, s: State, step: WorkStep)
    requires Logged(e, s) && WorkEnabled(e, s, step) && PeerOk(e, s, step.p) && !e.answer(step.p).NoContact?
    ensures Logged(e, WorkAfter(e, s, step))
  {
    var t, p := WorkAfter(e, s, step), step.p;
    WorkRecords(e, s, step);
    OthersLogged(s, t, p);
    ListsRecorded(s.started, t.started, Pick(s.stage, Attempted), Pick(t.stage, Attempted), p);
    ListsRecorded(s.asked, t.asked, Asked(s), Asked(t), p);
    ListsRecorded(s.errs, t.errs, FailedPeers(s), FailedPeers(t), p);
  }

  lemma StepLogged(e: Env, s: State, step: Step)
    requires Wired(e, s) && Logged(e, s) && Enabled(e, s, step)
    ensures Logged(e, After(e, s, step))
  {
    match step
    case Add(x) => AddLogged(e, s, x);
    case Work(x) =>
      NotAdding(e, s, x.p);
      WorkLogged(e, s, x);
    case Control(x) => ControlLogged(e, s, x);
  }

  lemma ControlLogged(e: Env, s: State, step: ControlStep)
    requires Logged(e, s) && ControlEnabled(s, step)
    ensures Logged(e, ControlAfter(s, step))
  {
  }

  lemma StepHonest(e: Env, s: State, step: Step)
    requires CountOk(e, s) && Dialable(e, s) && Honest(e, s) && Enabled(e, s, step)
    ensures Honest(e, After(e, s, step))
  {
    match step
    case Add(x) => AddHonest(e, s, x);
    case Work(x) => WorkHonest(e, s, x);
    case Control(x) => ControlHonest(e, s, x);
  }

  lemma AddHonest(e: Env, s: State, step: AddStep)
    requires Honest(e, s) && AddEnabled(e, s, step)
    ensures Honest(e, AddAfter(e, s, step))
  {
  }

  lemma WorkHonest(e: Env, s: State, step: WorkStep)
    requires CountOk(e, s) && Dialable(e, s) && Honest(e, s) && WorkEnabled(e, s, step)
    ensures Honest(e, WorkAfter(e, s, step))
  {
  }

  lemma ControlHonest(e: Env, s: State, step: ControlStep)
    requires Honest(e, s) && ControlEnabled(s, step)
    ensures Honest(e, ControlAfter(s, step))
  {
  }

  /** Only peers that can be reached are asked. */
  ghost predicate Dialable(e: Env, s: State) {
    forall p :: p in s.stage && (s.stage[p].Asking? || s.stage[p].DialDone?) ==> e.dial(p) != Unreachable
  }

  lemma StepDialable(e: Env, s: State, step: Step)
    requires Dialable(e, s) && Enabled(e, s, step)
    ensures Dialable(e, After(e, s, step))
  {
    match step
    case Add(x) => AddDialable(e, s, x);
    case Work(x) => WorkDialable(e, s, x);
    case Control(x) =>
  }

  lemma AddDialable(e: Env, s: State, step: AddStep)
    requires Dialable(e, s) && AddEnabled(e, s, step)
    ensures Dialable(e, AddAfter(e, s, step))
  {
  }

  lemma WorkDialable(e: Env, s: State, step: WorkStep)
    requires Dialable(e, s) && WorkEnabled(e, s, step)
    ensures Dialable(e, WorkAfter(e, s, step))
  {
  }

  // ---------- the result ----------

  /** The result is from a peer that answered with success, and there is one as soon as a peer did. */
  ghost predicate ResultOk(s: State) {
    match s.result
    case Some(p) => p in s.reply && s.reply[p] == Success
    case None => forall p :: p in s.reply ==> s.reply[p] != Success
  }

  lemma StepResult(e: Env, s: State, step: Step)
    requires Wired(e, s) && ResultOk(s) && Enabled(e, s, step)
    ensures ResultOk(After(e, s, step))
  {
    match step
    case Add(x) =>
    case Work(x) => WorkResult(e, s, x);
    case Control(x) =>
  }

  lemma WorkResult(e: Env, s: State, step: WorkStep)
    requires Wired(e, s) && ResultOk(s) && WorkEnabled(e, s, step)
    ensures ResultOk(WorkAfter(e, s, step))
  {
    NotAdding(e, s, step.p);
  }

  // ---------- every run ----------

  ghost predicate Inv(e: Env, s: State) {
    && Wired(e, s) && TokensOk(e, s) && CountOk(e, s) && Needed(e, s)
    && Logged(e, s) && Dialable(e, s) && Honest(e, s) && ResultOk(s)
  }

  lemma InitInv(e: Env)
    requires WellFormed(e)
    ensures Inv(e, Init(e))
  {
    var s := Init(e);
    assert AdderOk(e, s, Caller);
    assert Pick(s.stage, Counted) == {} && Pick(s.stage, HoldsToken) == {} && Pick(s.stage, Attempted) == {};
    assert Asked(s) == {} && FailedPeers(s) == {};
  }

  lemma StepInv(e: Env, s: State, step: Step)
    requires Inv(e, s) && Enabled(e, s, step)
    ensures Inv(e, After(e, s, step))
  {
    StepWired(e, s, step);
    StepTokens(e, s, step);
    StepCount(e, s, step);
    StepNeeded(e, s, step);
    StepLogged(e, s, step);
    StepDialable(e, s, step);
    StepHonest(e, s, step);
    StepResult(e, s, step);
  }

  lemma {:induction false} RunInv(e: Env, steps: seq<Step>)
    requires WellFormed(e) && CanRun(e, steps)
    ensures Inv(e, RunTo(e, steps))
  {
    if steps == [] {
      InitInv(e);
    } else {
      var n := |steps| - 1;
      RunInv(e, steps[..n]);
      StepInv(e, RunTo(e, steps[..n]), steps[n]);
    }
  }
}
