/** What the lookup promises its caller, over every run. */
module LookupResults {
  import opened Collections
  import opened Lookup
  import opened LookupSafety

  /**
   * The search was complete: the peers seen are the least set that holds the start peers
   * and every peer that a seen peer told about; each of them was attempted exactly once;
   * and the recorded errors are as many as the peers iff every attempt failed.
   */
  ghost predicate Complete(e: Env, s: State) {
    var seen := s.stage.Keys;
    && Closed(e, s.reply, seen)
    && (forall ps :: Closed(e, s.reply, ps) ==> seen <= ps)
    && Lists(s.started, seen)
    && s.reply.Keys == seen
    && Lists(s.asked, set p | p in seen && s.reply[p] != NoContact)
    && (|s.errs| == |seen| <==> forall p :: p in seen ==> s.reply[p] == NoContact || s.reply[p] == Failed)
  }

  lemma DoneIsComplete(e: Env, s: State)
    requires Inv(e, s) && s.done
    ensures Complete(e, s)
    ensures !s.early ==> forall p :: p in s.stage ==> p in s.reply && s.reply[p] == Attempt(e, p)
  {
    var seen := s.stage.Keys;
    forall p | p in s.stage
      ensures p in s.reply && AllSeen(e, s, Links(s, p)) && Attempted(s.stage[p])
    {
      assert PeerOk(e, s, p);
    }
    assert Pick(s.stage, Attempted) == seen;
    assert Asked(s) == set p | p in seen && s.reply[p] != NoContact;
    DoneClosed(e, s);
    ErrsCount(e, s);
  }

  lemma DoneClosed(e: Env, s: State)
    requires Inv(e, s) && !s.main.Starting?
    requires forall p :: p in s.stage ==> p in s.reply && AllSeen(e, s, Links(s, p))
    ensures Closed(e, s.reply, s.stage.Keys)
  {
    forall p, i | p in s.stage && s.reply[p].Closer? && 0 <= i < |s.reply[p].peers|
      ensures s.reply[p].peers[i] == e.self || s.reply[p].peers[i] in s.stage
    {
      assert AllSeen(e, s, Links(s, p));
    }
  }

  lemma ErrsCount(e: Env, s: State)
    requires Logged(e, s) && s.reply.Keys == s.stage.Keys
    ensures |s.errs| == |s.stage.Keys|
            <==> forall p :: p in s.stage ==> s.reply[p] == NoContact || s.reply[p] == Failed
  {
    var failed, seen := FailedPeers(s), s.stage.Keys;
    ListsSize(s.errs, failed);
    if forall p :: p in s.stage ==> s.reply[p] == NoContact || s.reply[p] == Failed {
      assert failed == seen;
    } else {
      var p :| p in s.stage && s.reply[p] != NoContact && s.reply[p] != Failed;
      assert failed <= seen - {p};
      SubsetSize(failed, seen - {p});
    }
  }

  /** In every run: once the counter has reached zero the search was complete. */
  lemma SearchIsComplete(e: Env, steps: seq<Step>)
    requires WellFormed(e) && CanRun(e, steps) && RunTo(e, steps).done
    ensures Complete(e, RunTo(e, steps))
    ensures !RunTo(e, steps).early
            ==> forall p :: p in RunTo(e, steps).stage
                  ==> p in RunTo(e, steps).reply && RunTo(e, steps).reply[p] == Attempt(e, p)
  {
    RunInv(e, steps);
    DoneIsComplete(e, RunTo(e, steps));
  }

  ghost predicate AllFailedAt(s: State) {
    s.stage != map[] && forall p :: p in s.stage ==> p in s.reply && (s.reply[p] == NoContact || s.reply[p] == Failed)
  }

  /** A result if any peer gave one, else the first error if all failed, else nothing. */
  ghost predicate Explains(s: State, o: Outcome) {
    match o
    case Found(p) => p in s.reply && s.reply[p] == Success
    case AllFailed(p) => AllFailedAt(s) && s.errs != [] && p == s.errs[0] && p in s.stage
    case NotFound => !AllFailedAt(s) && forall p :: p in s.reply ==> s.reply[p] != Success
    case Deadline => false
  }

  lemma OutcomeExplained(e: Env, s: State)
    requires Complete(e, s) && ResultOk(s) && Lists(s.errs, FailedPeers(s))
    ensures Explains(s, Returned(s))
  {
    EmptyKeys(s.stage);
    assert |s.errs| > 0 ==> s.errs[0] in s.errs;
  }

  /** What `Run` returns after the counter reached zero. */
  lemma ReturnedOutcome(e: Env, steps: seq<Step>)
    requires WellFormed(e) && CanRun(e, steps + [Control(Return)])
    ensures CanRun(e, steps)
    ensures var s := RunTo(e, steps);
            Complete(e, s) && RunTo(e, steps + [Control(Return)]).main == Ended(Returned(s)) && Explains(s, Returned(s))
  {
    assert (steps + [Control(Return)])[..|steps|] == steps;
    RunInv(e, steps);
    var s := RunTo(e, steps);
    DoneIsComplete(e, s);
    OutcomeExplained(e, s);
  }

  // ---------- closed before the counter reached zero ----------

  /** Closing begins with a result, from outside, or when the caller saw the counter at zero. */
  ghost predicate ClosingExplained(s: State, steps: seq<Step>) {
    s.closing ==> s.result.Some? || Control(CloseOutside) in steps || s.main == Finishing || s.main.Ended?
  }

  lemma {:induction false} RunClosing(e: Env, steps: seq<Step>)
    requires CanRun(e, steps)
    ensures ClosingExplained(RunTo(e, steps), steps)
  {
    if steps != [] {
      var n := |steps| - 1;
      RunClosing(e, steps[..n]);
      assert steps == steps[..n] + [steps[n]];
      StepClosing(e, RunTo(e, steps[..n]), steps[..n], steps[n]);
    }
  }

  lemma StepClosing(e: Env, s: State, steps: seq<Step>, step: Step)
    requires Enabled(e, s, step) && ClosingExplained(s, steps)
    ensures ClosingExplained(After(e, s, step), steps + [step])
  {
    assert forall x :: x in steps ==> x in steps + [step];
    assert step in steps + [step];
    match step
    case Add(_) =>
    case Work(_) =>
    case Control(_) =>
  }

  /**
   * What `Run` returns when it was closed first: the result of a peer that succeeded, or, only if
   * closed from outside and no peer succeeded, the deadline error.
   */
  lemma ClosedOutcome(e: Env, steps: seq<Step>)
    requires WellFormed(e) && CanRun(e, steps + [Control(SeeClosed)])
    ensures CanRun(e, steps)
    ensures var s := RunTo(e, steps);
            match RunTo(e, steps + [Control(SeeClosed)]).main
            case Ended(Found(p)) => p in s.reply && s.reply[p] == Success
            case Ended(Deadline) => Control(CloseOutside) in steps && forall p :: p in s.reply ==> s.reply[p] != Success
            case _ => false
  {
    assert (steps + [Control(SeeClosed)])[..|steps|] == steps;
    RunInv(e, steps);
    RunClosing(e, steps);
  }

  lemma EmptyKeys(m: map<Peer, Stage>)
    ensures |m| == |m.Keys|
    ensures m == map[] <==> |m.Keys| == 0
  {
    if m != map[] {
      var p :| p in m;
      assert p in m.Keys;
    }
  }

  // ---------- the order of the search ----------

  lemma StepRecords(e: Env, s: State, step: Step)
    requires Enabled(e, s, step)
    ensures var t := After(e, s, step);
            && s.errs <= t.errs && s.asked <= t.asked
            && t.started == s.started + (if step.Work? && step.work.Spawn? then [step.work.p] else [])
  {
    match step
    case Add(_) =>
    case Work(_) =>
    case Control(_) =>
  }

  /** Workers start nearest first: each on a peer nobody waiting in the queue at that moment is closer than. */
  lemma {:induction false} StartedNearest(e: Env, steps: seq<Step>, k: nat) returns (n: nat)
    requires CanRun(e, steps) && k < |RunTo(e, steps).started|
    ensures n < |steps| && CanRun(e, steps[..n])
    ensures var s, p := RunTo(e, steps[..n]), RunTo(e, steps).started[k];
            && s.started == RunTo(e, steps).started[..k]
            && At(s, p, Queued) && forall q :: At(s, q, Queued) ==> e.metric(p) <= e.metric(q)
  {
    var m := |steps| - 1;
    var s := RunTo(e, steps[..m]);
    StepRecords(e, s, steps[m]);
    if k < |s.started| {
      n := StartedNearest(e, steps[..m], k);
      assert steps[..m][..n] == steps[..n];
    } else {
      n := m;
    }
  }

  /** Errors, starts and questions are recorded in the order in which they happen. */
  lemma {:induction false} RecordedInOrder(e: Env, steps: seq<Step>, n: nat)
    requires CanRun(e, steps) && n <= |steps|
    ensures CanRun(e, steps[..n])
    ensures var s, t := RunTo(e, steps[..n]), RunTo(e, steps);
            s.errs <= t.errs && s.started <= t.started && s.asked <= t.asked
  {
    var m := |steps| - 1;
    if n == |steps| {
      assert steps[..n] == steps;
    } else {
      RecordedInOrder(e, steps[..m], n);
      StepRecords(e, RunTo(e, steps[..m]), steps[m]);
      assert steps[..m][..n] == steps[..n];
    }
  }

  predicate Succeeded(e: Env, step: Step) {
    step.Work? && step.work.AskEnd? && !step.work.aborted && e.answer(step.work.p) == Success
  }

  /** The result is that of the last peer that succeeded. */
  lemma {:induction false} ResultIsLast(e: Env, steps: seq<Step>)
    requires CanRun(e, steps)
    ensures var r := RunTo(e, steps).result;
            && (r.None? <==> forall i :: 0 <= i < |steps| ==> !Succeeded(e, steps[i]))
            && (r.Some? ==> exists i :: 0 <= i < |steps| && Succeeded(e, steps[i]) && steps[i].work.p == r.value
                              && forall j :: i < j < |steps| ==> !Succeeded(e, steps[j]))
  {
    if steps != [] {
      var m := |steps| - 1;
      var r := RunTo(e, steps[..m]).result;
      ResultIsLast(e, steps[..m]);
      if Succeeded(e, steps[m]) {
        assert RunTo(e, steps).result == Some(steps[m].work.p);
      } else {
        assert RunTo(e, steps).result == r;
        if r.Some? {
          var i :| 0 <= i < m && Succeeded(e, steps[..m][i]) && steps[..m][i].work.p == r.value
                     && forall j :: i < j < m ==> !Succeeded(e, steps[..m][j]);
          assert Succeeded(e, steps[i]) && steps[i].work.p == r.value;
          forall j | i < j < |steps| ensures !Succeeded(e, steps[j]) {
            if j < m { assert steps[..m][j] == steps[j]; }
          }
        } else {
          forall i | 0 <= i < |steps| ensures !Succeeded(e, steps[i]) {
            if i < m { assert steps[..m][i] == steps[i]; }
          }
        }
      }
    }
  }

  // ---------- the rate limit ----------

  predicate IsAsking(g: Stage) { g.Asking? }

  /**
   * In every run: while the spawner runs no token is lost, never more than one; at most
   * `concurrency` query functions run at once; and giving a token back never blocks.
   */
  lemma RateLimit(e: Env, steps: seq<Step>)
    requires WellFormed(e) && CanRun(e, steps)
    ensures var s := RunTo(e, steps);
            && s.tokens + (if s.spawner == HasToken then 1 else 0) + |Pick(s.stage, HoldsToken)|
               == e.concurrency - s.lost
            && 0 <= s.lost <= 1 && (s.spawner != Stopped ==> s.lost == 0)
            && |Pick(s.stage, IsAsking)| <= e.concurrency
            && forall p :: p in s.stage && HoldsToken(s.stage[p]) ==> 0 <= s.tokens < e.concurrency
  {
    RunInv(e, steps);
    var s := RunTo(e, steps);
    assert Pick(s.stage, IsAsking) <= Pick(s.stage, HoldsToken);
    SubsetSize(Pick(s.stage, IsAsking), Pick(s.stage, HoldsToken));
    forall p | p in s.stage && HoldsToken(s.stage[p])
      ensures |Pick(s.stage, HoldsToken)| >= 1
    {
      assert p in Pick(s.stage, HoldsToken);
    }
  }
}
