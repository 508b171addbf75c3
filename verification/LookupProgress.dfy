/**
 * The lookup never hangs and always ends: with two tokens or more some step is possible
 * until `Run` has returned, and a measure bounds the length of every run.
 */
module LookupProgress {
  import opened Lookup
  import opened LookupSafety

  ghost predicate HasStart(e: Env) {
    exists i :: 0 <= i < |e.starts| && e.starts[i] != e.self
  }

  /** A step the program itself can take. */
  ghost predicate OwnStep(e: Env, s: State, step: Step) {
    Enabled(e, s, step) && step != Control(CloseOutside)
  }

  /** A step that neither ends a dial nor closes anything. */
  predicate Quiet(step: Step) {
    match step
    case Add(_) => true
    case Work(x) => !x.DialEnd? && !x.Retake?
    case Control(x) => x.Begin? || x.TakeToken?
  }

  predicate InDial(g: Stage) {
    g.Dialing? || g.DialFailed? || g.DialDone?
  }

  /** Two tokens, or one and nobody that gave it back to dial. */
  ghost predicate Enough(e: Env, s: State) {
    e.concurrency >= 2 || (e.concurrency == 1 && forall p :: p in s.stage ==> !InDial(s.stage[p]))
  }

  // ---------- some step is possible ----------

  lemma AdderStep(e: Env, s: State, a: Adder) returns (step: Step)
    requires Wired(e, s) && a in s.adding
    ensures OwnStep(e, s, step) && Quiet(step)
  {
    assert AdderOk(e, s, a);
    var c := s.adding[a];
    if c.busy {
      var x := c.todo[c.next];
      if s.stage[x] == Claimed(a) {
        step := Add(Count(a, x));
      } else if !s.queueStopped {
        step := Add(Send(a, x));
      } else {
        step := Add(GiveUp(a, x));
      }
    } else if c.next < |c.todo| {
      step := Add(if Item(s, a) == e.self || Item(s, a) in s.stage then Skip(a) else Claim(a));
    } else {
      step := match a case Caller => Control(Begin) case Worker(p) => Work(AllAdded(p));
    }
  }

  lemma HolderStep(e: Env, s: State, p: Peer) returns (step: Step)
    requires Inv(e, s) && p in s.stage && HoldsToken(s.stage[p])
    ensures OwnStep(e, s, step) && Quiet(step)
  {
    assert p in Pick(s.stage, HoldsToken);
    NotAdding(e, s, p);
    match s.stage[p]
    case Started => step := Work(Look(p));
    case Asking => step := Work(AskEnd(p, false));
    case Adding => step := AdderStep(e, s, Worker(p));
    case Leaving => step := Work(CountOff(p));
    case Returning => step := Work(GiveBack(p));
  }

  /** The spawner cannot hold all the tokens that are out, so some worker has one. */
  lemma TokenSomewhere(e: Env, s: State) returns (step: Step)
    requires Inv(e, s) && s.tokens == 0
    requires e.concurrency >= 2 || (e.concurrency == 1 && s.spawner != HasToken && s.lost == 0)
    ensures OwnStep(e, s, step)
  {
    var holders := Pick(s.stage, HoldsToken);
    assert |holders| >= 1;
    var p :| p in holders;
    step := HolderStep(e, s, p);
  }

  lemma ActiveStep(e: Env, s: State, p: Peer) returns (step: Step)
    requires Inv(e, s) && Enough(e, s) && p in s.stage && Active(s.stage[p])
    ensures OwnStep(e, s, step)
  {
    if HoldsToken(s.stage[p]) {
      step := HolderStep(e, s, p);
    } else if s.stage[p].Dialing? {
      step := Work(DialEnd(p, false));
    } else if s.tokens > 0 {
      step := Work(Retake(p));
    } else {
      step := TokenSomewhere(e, s);
    }
  }

  lemma {:induction false} NearestExists(e: Env, ps: set<Peer>) returns (p: Peer)
    requires ps != {}
    ensures p in ps && forall q :: q in ps ==> e.metric(p) <= e.metric(q)
  {
    p :| p in ps;
    if ps != {p} {
      var r := NearestExists(e, ps - {p});
      if e.metric(r) < e.metric(p) { p := r; }
    }
  }

  predicate IsQueued(g: Stage) { g.Queued? }

  lemma NearestOfQueue(e: Env, s: State, p: Peer) returns (q: Peer)
    requires At(s, p, Queued)
    ensures NearestQueued(e, s, q)
  {
    assert p in Pick(s.stage, IsQueued);
    q := NearestExists(e, Pick(s.stage, IsQueued));
    forall r | At(s, r, Queued)
      ensures e.metric(q) <= e.metric(r)
    {
      assert r in Pick(s.stage, IsQueued);
    }
  }

  lemma QueuedStep(e: Env, s: State, p: Peer) returns (step: Step)
    requires Inv(e, s) && Enough(e, s) && At(s, p, Queued)
    requires !s.closing && !s.done && !s.main.Starting?
    ensures OwnStep(e, s, step)
  {
    if s.spawner == HasToken {
      var q := NearestOfQueue(e, s, p);
      step := Work(Spawn(q));
    } else if s.tokens > 0 {
      step := Control(TakeToken);
    } else {
      step := TokenSomewhere(e, s);
    }
  }

  /** While the search goes on somebody is counted. */
  lemma SomebodyCounted(e: Env, s: State) returns (p: Peer)
    requires Inv(e, s) && HasStart(e) && !s.main.Starting? && !s.done
    ensures p in s.stage && Counted(s.stage[p])
  {
    var i :| 0 <= i < |e.starts| && e.starts[i] != e.self;
    assert AllSeen(e, s, e.starts);
    var x := e.starts[i];
    if Counted(s.stage[x]) {
      p := x;
    } else if s.stage[x].Claimed? {
      ClaimerCounted(e, s, x);
      p := s.stage[x].owner.peer;
    } else {
      assert s.count > 0;
      p :| p in Pick(s.stage, Counted);
    }
  }

  lemma SearchingStep(e: Env, s: State) returns (step: Step)
    requires Inv(e, s) && Enough(e, s) && HasStart(e)
    requires !s.main.Starting? && !s.done && !s.closing
    ensures OwnStep(e, s, step)
  {
    var p := SomebodyCounted(e, s);
    assert PeerOk(e, s, p);
    if Active(s.stage[p]) {
      step := ActiveStep(e, s, p);
    } else if s.stage[p].Queued? {
      step := QueuedStep(e, s, p);
    } else {
      assert s.stage[p].Offered?;
      step := AdderStep(e, s, s.stage[p].owner);
    }
  }

  lemma ClosingStep(e: Env, s: State) returns (step: Step)
    requires Inv(e, s) && Enough(e, s) && s.closing && (s.main == Waiting || s.main == Finishing)
    ensures OwnStep(e, s, step)
  {
    if p :| p in s.stage && Active(s.stage[p]) {
      step := ActiveStep(e, s, p);
    } else if s.spawner != Stopped {
      step := Control(StopSpawner);
    } else {
      step := Control(if s.main == Waiting then SeeClosed else Return);
    }
  }

  lemma NextStep(e: Env, s: State) returns (step: Step)
    requires Inv(e, s) && Enough(e, s) && HasStart(e) && !s.main.Ended?
    ensures OwnStep(e, s, step)
  {
    if s.main.Starting? {
      step := AdderStep(e, s, Caller);
    } else if s.main == Waiting && s.done {
      step := Control(SeeDone);
    } else if s.closing {
      step := ClosingStep(e, s);
    } else {
      step := SearchingStep(e, s);
    }
  }

  ghost predicate NeverStuck(e: Env) {
    forall steps :: CanRun(e, steps) ==> RunTo(e, steps).main.Ended? || exists step :: OwnStep(e, RunTo(e, steps), step)
  }

  lemma TwoTokensNeverStuck(e: Env)
    requires WellFormed(e) && HasStart(e) && e.concurrency >= 2
    ensures NeverStuck(e)
  {
    forall steps | CanRun(e, steps) && !RunTo(e, steps).main.Ended?
      ensures exists step :: OwnStep(e, RunTo(e, steps), step)
    {
      RunInv(e, steps);
      var step := NextStep(e, RunTo(e, steps));
    }
  }

  // ---------- every run ends ----------

  function Rest(s: State, a: Adder): nat {
    if a in s.adding && s.adding[a].next <= |s.adding[a].todo| then |s.adding[a].todo| - s.adding[a].next else 0
  }

  function ListLength(e: Env, p: Peer): nat {
    if e.answer(p).Closer? then |e.answer(p).peers| else 0
  }

  /** How many steps a peer can still take or cause, with `rest` peers left in its own list. */
  function StageWeight(list: nat, g: Stage, rest: nat): nat {
    match g
    case Claimed(_) => 12 + list
    case Offered(_) => 11 + list
    case Dropped => 0
    case Queued => 10 + list
    case Started => 8 + list
    case Dialing => 7 + list
    case DialFailed => 3
    case DialDone => 6 + list
    case Asking => 5 + list
    case Adding => 3 + rest
    case Leaving => 2
    case Returning => 1
    case Finished => 0
  }

  function Weight(e: Env, s: State, p: Peer): nat {
    if p !in s.stage then 13 + ListLength(e, p) else StageWeight(ListLength(e, p), s.stage[p], Rest(s, Worker(p)))
  }

  ghost function Sum(e: Env, s: State, ps: set<Peer>): nat {
    if ps == {} then 0
    else
      var p :| p in ps;
      Weight(e, s, p) + Sum(e, s, ps - {p})
  }

  lemma {:induction false} SumTakeOut(e: Env, s: State, ps: set<Peer>, q: Peer)
    requires q in ps
    ensures Sum(e, s, ps) == Weight(e, s, q) + Sum(e, s, ps - {q})
    decreases ps
  {
    var p :| p in ps && Sum(e, s, ps) == Weight(e, s, p) + Sum(e, s, ps - {p});
    if p != q {
      SumTakeOut(e, s, ps - {p}, q);
      SumTakeOut(e, s, ps - {q}, p);
      assert ps - {p} - {q} == ps - {q} - {p};
    }
  }

  lemma {:induction false} SumDrops(e: Env, s: State, t: State, ps: set<Peer>)
    requires forall p :: p in ps ==> Weight(e, t, p) <= Weight(e, s, p)
    ensures Sum(e, t, ps) <= Sum(e, s, ps)
  {
    if ps != {} {
      var p :| p in ps;
      SumTakeOut(e, s, ps, p);
      SumTakeOut(e, t, ps, p);
      SumDrops(e, s, t, ps - {p});
    }
  }

  lemma SumDropsBy(e: Env, s: State, t: State, q: Peer, k: nat)
    requires q in e.world && forall p :: p in e.world ==> Weight(e, t, p) <= Weight(e, s, p)
    requires Weight(e, t, q) + k <= Weight(e, s, q)
    ensures Sum(e, t, e.world) + k <= Sum(e, s, e.world)
  {
    SumTakeOut(e, s, e.world, q);
    SumTakeOut(e, t, e.world, q);
    SumDrops(e, s, t, e.world - {q});
  }

  function ControlWeight(s: State): nat {
    (match s.main case Starting => 4 case Waiting => 3 case Finishing => 2 case Ended(_) => 0)
    + (match s.spawner case NotStarted => 3 case Idle => 2 case HasToken => 1 case Stopped => 0)
    + (if s.closing then 0 else 1) + (if s.queueStopped then 0 else 1) + Rest(s, Caller)
  }

  ghost function Total(e: Env, s: State): nat {
    Sum(e, s, e.world) + ControlWeight(s)
  }

  lemma AddShrinks(e: Env, s: State, step: AddStep)
    requires Wired(e, s) && AddEnabled(e, s, step)
    ensures Total(e, AddAfter(e, s, step)) < Total(e, s)
  {
    var t, a := AddAfter(e, s, step), step.a;
    assert AdderOk(e, s, a);
    AddWeights(e, s, step);
    if step.Skip? {
      SkipShrinks(e, s, a);
    } else {
      ItemIsOwn(e, s, step);
      if !step.Claim? { assert PeerOk(e, s, Item(s, a)); }
      SumDropsBy(e, s, t, Item(s, a), 1);
    }
  }

  lemma SkipShrinks(e: Env, s: State, a: Adder)
    requires Wired(e, s) && AddEnabled(e, s, Skip(a))
    ensures Total(e, AddAfter(e, s, Skip(a))) < Total(e, s)
  {
    var t := AddAfter(e, s, Skip(a));
    assert AdderOk(e, s, a);
    AddWeights(e, s, Skip(a));
    match a
    case Caller => SumDrops(e, s, t, e.world);
    case Worker(p) =>
      assert PeerOk(e, s, p);
      SumDropsBy(e, s, t, p, 1);
  }

  lemma AddWeights(e: Env, s: State, step: AddStep)
    requires Wired(e, s) && AddEnabled(e, s, step)
    ensures var t := AddAfter(e, s, step);
            && (forall p :: Weight(e, t, p) <= Weight(e, s, p))
            && ControlWeight(t) <= ControlWeight(s)
  {
    var t := AddAfter(e, s, step);
    AddRests(e, s, step);
    forall p
      ensures Weight(e, t, p) <= Weight(e, s, p)
    {
      assert Rest(t, Worker(p)) <= Rest(s, Worker(p));
      AddWeight(e, s, step, p);
    }
    assert Rest(t, Caller) <= Rest(s, Caller);
  }

  lemma AddRests(e: Env, s: State, step: AddStep)
    requires AddEnabled(e, s, step)
    ensures forall a :: Rest(AddAfter(e, s, step), a) <= Rest(s, a)
  {
  }

  lemma HandedWeight(list: nat, step: AddStep, rest: nat, g: Stage)
    requires !step.Skip? && (step.Claim? || g == (if step.Count? then Claimed(step.a) else Offered(step.a)))
    ensures StageWeight(list, HandedTo(step), rest) < if step.Claim? then 13 + list else StageWeight(list, g, rest)
  {
  }

  lemma AddWeight(e: Env, s: State, step: AddStep, p: Peer)
    requires AddEnabled(e, s, step)
    requires Rest(AddAfter(e, s, step), Worker(p)) <= Rest(s, Worker(p))
    ensures Weight(e, AddAfter(e, s, step), p) <= Weight(e, s, p)
    ensures !step.Skip? && p == Item(s, step.a) ==> Weight(e, AddAfter(e, s, step), p) < Weight(e, s, p)
  {
    if !step.Skip? && p == Item(s, step.a) {
      var g := if step.Count? then Claimed(step.a) else Offered(step.a);
      HandedWeight(ListLength(e, p), step, Rest(AddAfter(e, s, step), Worker(p)), g);
    } else if p in s.stage {
      RestWeight(ListLength(e, p), s.stage[p], Rest(AddAfter(e, s, step), Worker(p)), Rest(s, Worker(p)));
    }
  }

  lemma RestWeight(list: nat, g: Stage, less: nat, more: nat)
    requires less <= more
    ensures StageWeight(list, g, less) <= StageWeight(list, g, more)
  {
  }

  lemma WorkShrinks(e: Env, s: State, step: WorkStep)
    requires Wired(e, s) && WorkEnabled(e, s, step)
    ensures Total(e, WorkAfter(e, s, step)) < Total(e, s)
  {
    var t, p := WorkAfter(e, s, step), step.p;
    NotAdding(e, s, p);
    WorkOthers(e, s, step);
    WorkOwn(e, s, step);
    SumDropsBy(e, s, t, p, if step.Spawn? then 2 else 1);
  }

  lemma WorkRests(e: Env, s: State, step: WorkStep)
    requires WorkEnabled(e, s, step)
    ensures forall a :: a != Worker(step.p) ==> Rest(WorkAfter(e, s, step), a) == Rest(s, a)
  {
    WorkAdding(e, s, step);
  }

  lemma WorkOthers(e: Env, s: State, step: WorkStep)
    requires WorkEnabled(e, s, step)
    ensures forall q :: q != step.p ==> Weight(e, WorkAfter(e, s, step), q) == Weight(e, s, q)
  {
    var t := WorkAfter(e, s, step);
    WorkRests(e, s, step);
    forall q | q != step.p
      ensures Weight(e, t, q) == Weight(e, s, q)
    {
      assert Rest(t, Worker(q)) == Rest(s, Worker(q));
    }
  }

  lemma WorkOwn(e: Env, s: State, step: WorkStep)
    requires WorkEnabled(e, s, step)
    ensures var t, p := WorkAfter(e, s, step), step.p;
            && Weight(e, t, p) + (if step.Spawn? then 2 else 1) <= Weight(e, s, p)
            && ControlWeight(t) <= ControlWeight(s) + (if step.Spawn? then 1 else 0)
  {
    WorkRests(e, s, step);
    assert Rest(WorkAfter(e, s, step), Caller) == Rest(s, Caller);
    WorkOwnWeight(e, s, step);
  }

  lemma WorkOwnWeight(e: Env, s: State, step: WorkStep)
    requires WorkEnabled(e, s, step)
    ensures Weight(e, WorkAfter(e, s, step), step.p) + (if step.Spawn? then 2 else 1) <= Weight(e, s, step.p)
  {
    var t, p := WorkAfter(e, s, step), step.p;
    if NextStage(e, s, step).Adding? { WorkOwnRest(e, s, step); }
    NextWeight(e, s, step, Rest(t, Worker(p)), Rest(s, Worker(p)));
  }

  lemma WorkOwnRest(e: Env, s: State, step: WorkStep)
    requires WorkEnabled(e, s, step) && NextStage(e, s, step).Adding?
    ensures Rest(WorkAfter(e, s, step), Worker(step.p)) == ListLength(e, step.p)
  {
  }

  lemma NextWeight(e: Env, s: State, step: WorkStep, rest: nat, before: nat)
    requires WorkEnabled(e, s, step) && step.p in s.stage
    requires NextStage(e, s, step).Adding? ==> rest == ListLength(e, step.p)
    ensures StageWeight(ListLength(e, step.p), NextStage(e, s, step), rest) + (if step.Spawn? then 2 else 1)
            <= StageWeight(ListLength(e, step.p), s.stage[step.p], before)
  {
  }

  lemma ControlShrinks(e: Env, s: State, step: ControlStep)
    requires Wired(e, s) && ControlEnabled(s, step)
    ensures Total(e, ControlAfter(s, step)) < Total(e, s)
  {
    var t := ControlAfter(s, step);
    ControlDrops(s, step);
    SumDrops(e, s, t, e.world);
  }

  lemma ControlDrops(s: State, step: ControlStep)
    requires ControlEnabled(s, step)
    ensures var t := ControlAfter(s, step);
            && ControlWeight(t) < ControlWeight(s)
            && t.stage == s.stage && forall p :: Rest(t, Worker(p)) == Rest(s, Worker(p))
  {
  }

  lemma StepShrinks(e: Env, s: State, step: Step)
    requires Wired(e, s) && Enabled(e, s, step)
    ensures Total(e, After(e, s, step)) < Total(e, s)
  {
    match step
    case Add(x) => AddShrinks(e, s, x);
    case Work(x) => WorkShrinks(e, s, x);
    case Control(x) => ControlShrinks(e, s, x);
  }

  /** No run is longer than the measure of the initial state. */
  lemma {:induction false} RunBounded(e: Env, steps: seq<Step>)
    requires WellFormed(e) && CanRun(e, steps)
    ensures |steps| + Total(e, RunTo(e, steps)) <= Total(e, Init(e))
  {
    if steps != [] {
      var n := |steps| - 1;
      RunBounded(e, steps[..n]);
      RunInv(e, steps[..n]);
      StepShrinks(e, RunTo(e, steps[..n]), steps[n]);
    }
  }

  /** So every run goes on to an end: one that cannot be continued has returned. */
  lemma MaximalRunReturns(e: Env, steps: seq<Step>)
    requires WellFormed(e) && HasStart(e) && e.concurrency >= 2 && CanRun(e, steps)
    requires forall step :: !OwnStep(e, RunTo(e, steps), step)
    ensures RunTo(e, steps).main.Ended? && |steps| <= Total(e, Init(e))
  {
    TwoTokensNeverStuck(e);
    RunBounded(e, steps);
  }
}
