/**
 * Exactly when a lookup can hang, for every network and every number of tokens: when it is
 * started with no peer but ourselves, with no token, or with one token and a reachable peer
 * that has to be dialed.
 */
module LookupStuck {
  import opened Lookup
  import opened LookupSafety
  import opened LookupResults
  import opened LookupProgress

  /** `ps` holds the start peers and whatever peers in it would tell about, ourselves apart. */
  ghost predicate ClosedNet(e: Env, ps: set<Peer>) {
    && (forall i :: 0 <= i < |e.starts| ==> e.starts[i] == e.self || e.starts[i] in ps)
    && (forall p, i :: p in ps && e.answer(p).Closer? && 0 <= i < |e.answer(p).peers|
          ==> e.answer(p).peers[i] == e.self || e.answer(p).peers[i] in ps)
  }

  ghost predicate ConnectedNet(e: Env, ps: set<Peer>) {
    ClosedNet(e, ps) && forall p :: p in ps ==> e.dial(p) == Connected
  }

  /** No peer has to be dialed: we are connected to every peer that can be reached. */
  ghost predicate AllConnected(e: Env) {
    exists ps :: ConnectedNet(e, ps)
  }

  // ---------- one token is enough when nobody has to be dialed ----------

  ghost predicate DialsNeeded(e: Env, s: State) {
    forall p :: p in s.stage && InDial(s.stage[p]) ==> e.dial(p) != Connected
  }

  lemma StepDialsNeeded(e: Env, s: State, step: Step)
    requires DialsNeeded(e, s) && Enabled(e, s, step)
    ensures DialsNeeded(e, After(e, s, step))
  {
    match step
    case Add(x) =>
    case Work(x) =>
    case Control(x) =>
  }

  lemma {:induction false} RunDialsNeeded(e: Env, steps: seq<Step>)
    requires CanRun(e, steps)
    ensures DialsNeeded(e, RunTo(e, steps))
  {
    if steps != [] {
      var n := |steps| - 1;
      RunDialsNeeded(e, steps[..n]);
      StepDialsNeeded(e, RunTo(e, steps[..n]), steps[n]);
    }
  }

  /** Nothing outside a closed part of the network is ever seen. */
  lemma SeenInside(e: Env, s: State, ps: set<Peer>)
    requires Inv(e, s) && ClosedNet(e, ps)
    ensures s.stage.Keys <= ps
  {
    forall p, i | p in ps && p in s.reply && s.reply[p].Closer? && 0 <= i < |s.reply[p].peers|
      ensures s.reply[p].peers[i] == e.self || s.reply[p].peers[i] in ps
    {
      assert PeerOk(e, s, p);
    }
    assert Closed(e, s.reply, ps);
  }

  lemma OneTokenNeverStuck(e: Env)
    requires WellFormed(e) && HasStart(e) && e.concurrency == 1 && AllConnected(e)
    ensures NeverStuck(e)
  {
    var ps :| ConnectedNet(e, ps);
    forall steps | CanRun(e, steps) && !RunTo(e, steps).main.Ended?
      ensures exists step :: OwnStep(e, RunTo(e, steps), step)
    {
      RunInv(e, steps);
      RunDialsNeeded(e, steps);
      SeenInside(e, RunTo(e, steps), ps);
      var step := NextStep(e, RunTo(e, steps));
    }
  }

  // ---------- a run in which no dial ends and nothing closes ----------

  lemma Extend(e: Env, steps: seq<Step>, step: Step)
    requires CanRun(e, steps) && Enabled(e, RunTo(e, steps), step)
    ensures CanRun(e, steps + [step]) && RunTo(e, steps + [step]) == After(e, RunTo(e, steps), step)
  {
    assert (steps + [step])[..|steps|] == steps;
  }

  predicate Contacted(g: Stage) {
    g.Asking? || g.Adding? || Past(g)
  }

  ghost predicate Lazy(e: Env, s: State) {
    && !s.closing && !s.queueStopped && (s.main == Starting || s.main == Waiting) && s.spawner != Stopped
    && (forall p :: p in s.stage ==> LazyStage(e, p, s.stage[p]))
    && (s.done ==> s.stage != map[])
  }

  predicate LazyStage(e: Env, p: Peer, g: Stage) {
    && !g.DialFailed? && !g.DialDone?
    && (Contacted(g) ==> e.dial(p) == Connected)
    && (e.concurrency == 0 ==> !Attempted(g))
  }

  lemma AddLazy(e: Env, s: State, step: AddStep)
    requires Wired(e, s) && Lazy(e, s) && AddEnabled(e, s, step)
    ensures Lazy(e, AddAfter(e, s, step))
  {
    var t := AddAfter(e, s, step);
    forall p | p in t.stage ensures LazyStage(e, p, t.stage[p]) {
      if step.Skip? || p != Item(s, step.a) { assert LazyStage(e, p, s.stage[p]); } else { HandedLazy(e, p, step); }
    }
  }

  lemma HandedLazy(e: Env, p: Peer, step: AddStep)
    ensures LazyStage(e, p, HandedTo(step))
  {
  }

  lemma WorkLazy(e: Env, s: State, step: WorkStep)
    requires Inv(e, s) && Lazy(e, s) && WorkEnabled(e, s, step) && !step.DialEnd? && !step.Retake?
    ensures Lazy(e, WorkAfter(e, s, step))
  {
    var t := WorkAfter(e, s, step);
    NextLazy(e, s, step);
    forall p | p in t.stage ensures LazyStage(e, p, t.stage[p]) {
      if p != step.p { assert LazyStage(e, p, s.stage[p]); }
    }
    assert step.p in t.stage;
  }

  lemma NextLazy(e: Env, s: State, step: WorkStep)
    requires TokensOk(e, s) && WorkEnabled(e, s, step) && !step.DialEnd? && !step.Retake?
    requires step.p in s.stage && LazyStage(e, step.p, s.stage[step.p])
    ensures LazyStage(e, step.p, NextStage(e, s, step))
  {
  }

  lemma LazyKept(e: Env, s: State, step: Step)
    requires Inv(e, s) && Lazy(e, s) && Enabled(e, s, step) && Quiet(step)
    ensures Lazy(e, After(e, s, step))
  {
    match step
    case Add(x) => AddLazy(e, s, x);
    case Work(x) => WorkLazy(e, s, x);
    case Control(x) =>
  }

  ghost predicate NoQuietStep(e: Env, s: State) {
    forall step :: Quiet(step) ==> !Enabled(e, s, step)
  }

  /** Such a run goes on until no such step is left. */
  lemma Drift(e: Env, steps: seq<Step>) returns (more: seq<Step>)
    requires WellFormed(e) && CanRun(e, steps) && Lazy(e, RunTo(e, steps))
    ensures CanRun(e, more) && Lazy(e, RunTo(e, more)) && NoQuietStep(e, RunTo(e, more))
    decreases Total(e, RunTo(e, steps))
  {
    var s := RunTo(e, steps);
    RunInv(e, steps);
    more := steps;
    if step :| Quiet(step) && Enabled(e, s, step) {
      LazyKept(e, s, step);
      Extend(e, steps, step);
      StepShrinks(e, s, step);
      more := Drift(e, steps + [step]);
    }
  }

  lemma NobodyAdds(e: Env, s: State)
    requires Wired(e, s) && NoQuietStep(e, s)
    ensures s.adding == map[]
  {
    if s.adding != map[] {
      var a :| a in s.adding;
      var step := AdderStep(e, s, a);
    }
  }

  /** Then everybody has been added, and is queued, dialed or done with. */
  lemma Drifted(e: Env, s: State)
    requires Inv(e, s) && Lazy(e, s) && NoQuietStep(e, s)
    ensures s.main == Waiting && s.adding == map[]
    ensures forall p :: p in s.stage ==> s.stage[p].Queued? || s.stage[p].Dialing? || s.stage[p].Finished?
    ensures s.spawner == HasToken || (s.spawner == Idle && s.tokens == 0)
  {
    NobodyAdds(e, s);
    forall p | p in s.stage
      ensures s.stage[p].Queued? || s.stage[p].Dialing? || s.stage[p].Finished?
    {
      assert PeerOk(e, s, p);
      if HoldsToken(s.stage[p]) { var step := HolderStep(e, s, p); }
    }
    assert !Enabled(e, s, Control(TakeToken));
  }

  // ---------- stuck at once ----------

  ghost predicate Dead(s: State) {
    && s.main == Waiting && s.adding == map[] && !s.closing && !s.done && s.result.None?
    && (forall p :: p in s.stage ==> s.stage[p].Queued?)
    && (s.spawner == HasToken || (s.spawner == Idle && s.tokens == 0))
    && (s.spawner == HasToken ==> s.stage == map[])
  }

  lemma DeadIsStuck(e: Env, s: State)
    requires Dead(s)
    ensures forall step :: !OwnStep(e, s, step)
  {
    forall step
      ensures !OwnStep(e, s, step)
    {
      match step
      case Add(x) =>
      case Work(x) =>
      case Control(x) =>
    }
  }

  lemma RepliedIsPast(e: Env, s: State, p: Peer)
    requires Peers(e, s) && p in s.reply
    ensures p in s.stage && !s.stage[p].Queued?
  {
    assert PeerOk(e, s, p);
  }

  lemma NoReplies(e: Env, s: State)
    requires Inv(e, s) && forall p :: p in s.stage ==> s.stage[p].Queued?
    ensures s.result.None?
  {
    if s.result.Some? { RepliedIsPast(e, s, s.result.value); }
  }

  lemma OnlySelfIsDead(e: Env, s: State)
    requires Inv(e, s) && Lazy(e, s) && NoQuietStep(e, s) && !HasStart(e)
    ensures Dead(s)
  {
    Drifted(e, s);
    var none: set<Peer> := {};
    assert Closed(e, s.reply, none);
    assert s.stage.Keys == {};
    NoReplies(e, s);
  }

  lemma NoTokenIsDead(e: Env, s: State)
    requires Inv(e, s) && Lazy(e, s) && NoQuietStep(e, s) && e.concurrency == 0
    ensures Dead(s)
  {
    Drifted(e, s);
    NoReplies(e, s);
    if s.done { var p := SomebodyLeft(e, s); }
  }

  lemma SomebodyLeft(e: Env, s: State) returns (p: Peer)
    requires CountOk(e, s) && Lazy(e, s) && s.done
    ensures p in s.stage && Attempted(s.stage[p])
  {
    p :| p in s.stage;
  }

  // ---------- stuck as soon as the dials have ended ----------

  /** The spawner has the token, or took it with it; whoever dials will never get it back. */
  ghost predicate Starved(s: State) {
    && s.main == Waiting && s.adding == map[] && !s.done && s.tokens == 0
    && (s.spawner == HasToken || s.spawner == Stopped)
    && (forall p :: p in s.stage ==> InDial(s.stage[p]) || s.stage[p].Finished?)
    && (exists p :: p in s.stage && InDial(s.stage[p]))
  }

  lemma StarvedStays(e: Env, s: State, step: Step)
    requires Starved(s) && OwnStep(e, s, step)
    ensures Starved(After(e, s, step))
  {
    var p :| p in s.stage && InDial(s.stage[p]);
    var t := After(e, s, step);
    assert p in t.stage && InDial(t.stage[p]);
  }

  lemma RunOut(e: Env, steps: seq<Step>) returns (more: seq<Step>)
    requires WellFormed(e) && CanRun(e, steps) && Starved(RunTo(e, steps))
    ensures CanRun(e, more) && Starved(RunTo(e, more)) && forall step :: !OwnStep(e, RunTo(e, more), step)
    decreases Total(e, RunTo(e, steps))
  {
    var s := RunTo(e, steps);
    more := steps;
    if step :| OwnStep(e, s, step) {
      RunInv(e, steps);
      StarvedStays(e, s, step);
      Extend(e, steps, step);
      StepShrinks(e, s, step);
      more := RunOut(e, steps + [step]);
    }
  }

  /** A search that was complete without a dial shows that none was needed. */
  lemma DoneIsConnected(e: Env, s: State)
    requires Inv(e, s) && Lazy(e, s) && s.done
    ensures AllConnected(e)
  {
    DoneIsComplete(e, s);
    var seen := s.stage.Keys;
    forall p | p in seen
      ensures e.dial(p) == Connected && p in s.reply && s.reply[p] == e.answer(p)
    {
    }
    assert ConnectedNet(e, seen);
  }

  lemma NobodyQueued(e: Env, s: State, p: Peer)
    requires Inv(e, s) && NoQuietStep(e, s) && s.spawner == HasToken && !s.queueStopped && p in s.stage
    ensures !s.stage[p].Queued?
  {
    if s.stage[p].Queued? { var step := CanSpawn(e, s, p); }
  }

  lemma CanSpawn(e: Env, s: State, p: Peer) returns (step: Step)
    requires s.spawner == HasToken && !s.queueStopped && At(s, p, Queued)
    ensures Enabled(e, s, step) && Quiet(step)
  {
    var q := NearestOfQueue(e, s, p);
    step := Work(Spawn(q));
  }

  lemma OneTokenStarves(e: Env, s: State)
    requires Inv(e, s) && Lazy(e, s) && NoQuietStep(e, s) && HasStart(e) && e.concurrency == 1 && !AllConnected(e)
    ensures Starved(s)
  {
    Drifted(e, s);
    if s.done { DoneIsConnected(e, s); }
    assert |Pick(s.stage, HoldsToken)| == 0 by { assert Pick(s.stage, HoldsToken) == {}; }
    forall p | p in s.stage ensures InDial(s.stage[p]) || s.stage[p].Finished? {
      NobodyQueued(e, s, p);
    }
    var p := SomebodyCounted(e, s);
    assert InDial(s.stage[p]);
  }

  // ---------- exactly when ----------

  lemma CanHang(e: Env) returns (steps: seq<Step>)
    requires WellFormed(e) && (!HasStart(e) || e.concurrency == 0 || (e.concurrency == 1 && !AllConnected(e)))
    ensures CanRun(e, steps) && !RunTo(e, steps).main.Ended?
    ensures forall step :: !OwnStep(e, RunTo(e, steps), step)
  {
    assert Lazy(e, RunTo(e, []));
    steps := Drift(e, []);
    var s := RunTo(e, steps);
    RunInv(e, steps);
    if !HasStart(e) {
      OnlySelfIsDead(e, s);
      DeadIsStuck(e, s);
    } else if e.concurrency == 0 {
      NoTokenIsDead(e, s);
      DeadIsStuck(e, s);
    } else {
      OneTokenStarves(e, s);
      steps := RunOut(e, steps);
    }
  }

  /** A lookup never hangs if and only if it starts with another peer and has two tokens, or one and nobody to dial. */
  lemma NeverStuckIff(e: Env)
    requires WellFormed(e)
    ensures NeverStuck(e) <==> HasStart(e) && (e.concurrency >= 2 || (e.concurrency == 1 && AllConnected(e)))
  {
    if !HasStart(e) || e.concurrency == 0 || (e.concurrency == 1 && !AllConnected(e)) {
      var steps := CanHang(e);
    } else if e.concurrency >= 2 {
      TwoTokensNeverStuck(e);
    } else {
      OneTokenNeverStuck(e);
    }
  }

  /** One start peer that has to be dialed. */
  function OneDial(concurrency: nat): Env {
    Env(0, [1], concurrency, {1}, (p: Peer) => Reachable, (p: Peer) => Closer([]), (p: Peer) => 0)
  }

  lemma DialNeeded(c: nat)
    ensures !AllConnected(OneDial(c))
  {
    var e := OneDial(c);
    forall ps ensures !ConnectedNet(e, ps) {
      assert e.starts[0] == 1 && e.dial(1) == Reachable;
    }
  }

  /** Two tokens are exactly what it takes, whatever the network does. */
  lemma NeverStuckIffTwoTokens(c: nat)
    ensures (forall e :: WellFormed(e) && HasStart(e) && e.concurrency == c ==> NeverStuck(e)) <==> c >= 2
  {
    if c >= 2 {
      forall e | WellFormed(e) && HasStart(e) && e.concurrency == c
        ensures NeverStuck(e)
      {
        NeverStuckIff(e);
      }
    } else {
      var e := OneDial(c);
      assert e.starts[0] == 1 && HasStart(e);
      assert WellFormed(e);
      DialNeeded(c);
      NeverStuckIff(e);
    }
  }
}
