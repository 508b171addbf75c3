/**
 * Commits that race for the chain (action.go, holochain.go): a commit prepares its header
 * under the read lock, validates without a lock, and appends under the write lock only if
 * the chain has not grown; otherwise it starts over. Any number of commits and direct
 * `NewEntry` calls interleave, each locked section being one step.
 */
module Commit {
  import opened Collections
  import opened Wire
  import opened HeaderFormat
  import opened ChainFormat
  import opened Chain

  type Id(==) = nat

  datatype Job = Job(typ: Bytes, content: Content, change: Option<Change>)

  datatype Phase =
    | Begin
    | Ready(count: nat, index: nat, now: Time, hash: Bytes, header: Header)
    | Added(at: nat)
    | Failed(error: Error)

  /** `started` is the length of the chain when the commit began. */
  datatype Task = Task(job: Job, phase: Phase, started: nat, retries: nat)

  /** `owner[i]` is the commit that appended header `i`, none for `NewEntry`. */
  datatype State = State(chain: Value, tasks: map<Id, Task>, owner: seq<Option<Id>>)

  datatype Step =
    | Start(id: Id, job: Job)
    | PrepareHeader(id: Id, now: Time)
    | RefuseAction(id: Id, error: Error)
    | AddOrRetry(id: Id)
    | NewEntry(now: Time, typ: Bytes, content: Content)

  /** `addEntry` with its two checks. */
  function AddPrepared(v: Value, index: nat, hash: Bytes, h: Header, c: Content): Result<Value> {
    if |v.hashes| != index then Failure(IndexMoved)
    else if |v.hashes| != |v.entries| then Failure(Incomplete)
    else Success(Append(v, hash, h, c))
  }

  predicate Enabled(s: State, step: Step) {
    match step
    case Start(id, _) => id !in s.tasks
    case PrepareHeader(id, _) => id in s.tasks && s.tasks[id].phase.Begin?
    case RefuseAction(id, _) => id in s.tasks && s.tasks[id].phase.Ready?
    case AddOrRetry(id) => id in s.tasks && s.tasks[id].phase.Ready?
    case NewEntry(_, _, _) => true
  }

  ghost function SetPhase(s: State, id: Id, p: Phase): State
    requires id in s.tasks
  {
    s.(tasks := s.tasks[id := s.tasks[id].(phase := p)])
  }

  // ---------- what holds in every reachable state ----------

  /** A prepared header is the next one until the chain grows. */
  ghost predicate TaskOk(f: Format, v: Value, t: Task)
    requires Sound(f, v)
  {
    t.started + t.retries <= |v.headers| &&
    match t.phase
    case Ready(count, index, now, hash, h) =>
      && index == count <= |v.headers| && t.started + t.retries <= count
      && (count == |v.headers| ==>
            (t.job.typ in v.typeTops ==> 0 <= v.typeTops[t.job.typ] < |v.hashes|)
            && Prepare(f, v, now, t.job.typ, t.job.content, t.job.change) == Some((hash, h)))
    case Added(at) =>
      t.started + t.retries <= at < |v.headers| && v.headers[at].typ == t.job.typ && v.entries[at] == t.job.content
    case _ => true
  }

  ghost predicate Owns(s: State, id: Id, i: nat)
    requires i < |s.owner|
  {
    id in s.tasks && s.tasks[id].phase == Added(i)
  }

  ghost predicate Inv(f: Format, s: State) {
    && Sound(f, s.chain)
    && (forall id :: id in s.tasks ==> TaskOk(f, s.chain, s.tasks[id]))
    && |s.owner| == |s.chain.headers|
    && (forall i, id: Id :: 0 <= i < |s.owner| ==> (s.owner[i] == Some(id) <==> Owns(s, id, i)))
  }

  // ---------- steps ----------

  ghost function AfterPrepare(f: Format, s: State, id: Id, now: Time): State
    requires Inv(f, s) && id in s.tasks
  {
    var j := s.tasks[id].job;
    AppendSound(f, s.chain, now, j.typ, j.content, j.change);
    match Prepare(f, s.chain, now, j.typ, j.content, j.change)
    case None => SetPhase(s, id, Failed(NilHash))
    case Some((hash, h)) => SetPhase(s, id, Ready(|s.chain.headers|, |s.chain.hashes|, now, hash, h))
  }

  ghost function AfterAdd(s: State, id: Id): State
    requires id in s.tasks && s.tasks[id].phase.Ready?
  {
    var t := s.tasks[id];
    var r := t.phase;
    if r.count != |s.chain.headers| then
      s.(tasks := s.tasks[id := t.(phase := Begin, retries := t.retries + 1)])
    else match AddPrepared(s.chain, r.index, r.hash, r.header, t.job.content)
      case Failure(e) => SetPhase(s, id, Failed(e))
      case Success(v) =>
        State(v, s.tasks[id := t.(phase := Added(|s.chain.headers|))], s.owner + [Some(id)])
  }

  ghost function AfterNewEntry(f: Format, s: State, now: Time, typ: Bytes, c: Content): State
    requires Inv(f, s)
  {
    AppendSound(f, s.chain, now, typ, c, None);
    match Prepare(f, s.chain, now, typ, c, None)
    case None => s
    case Some((hash, h)) =>
      match AddPrepared(s.chain, |s.chain.hashes|, hash, h, c)
      case Failure(_) => s
      case Success(v) => s.(chain := v, owner := s.owner + [None])
  }

  ghost function After(f: Format, s: State, step: Step): State
    requires Inv(f, s) && Enabled(s, step)
  {
    match step
    case Start(id, job) => s.(tasks := s.tasks[id := Task(job, Begin, |s.chain.headers|, 0)])
    case PrepareHeader(id, now) => AfterPrepare(f, s, id, now)
    case RefuseAction(id, e) => SetPhase(s, id, Failed(e))
    case AddOrRetry(id) => AfterAdd(s, id)
    case NewEntry(now, typ, c) => AfterNewEntry(f, s, now, typ, c)
  }

  /** Only the end of the chain changes. */
  ghost predicate Extends(v: Value, w: Value) {
    v.headers <= w.headers && v.entries <= w.entries && v.hashes <= w.hashes
  }

  /** A grown chain leaves every other task as it was, its prepared header out of date. */
  lemma GrowthKeepsTask(f: Format, v: Value, w: Value, t: Task)
    requires Sound(f, v) && Sound(f, w) && Extends(v, w) && |v.headers| < |w.headers| && TaskOk(f, v, t)
    ensures TaskOk(f, w, t)
  {
  }

  lemma PrepareKeeps(f: Format, s: State, id: Id, now: Time)
    requires Inv(f, s) && id in s.tasks && s.tasks[id].phase.Begin?
    ensures Inv(f, AfterPrepare(f, s, id, now))
  {
    var j := s.tasks[id].job;
    AppendSound(f, s.chain, now, j.typ, j.content, j.change);
    var s' := AfterPrepare(f, s, id, now);
    assert TaskOk(f, s.chain, s.tasks[id]);
    forall i, k: Id | 0 <= i < |s'.owner|
      ensures s'.owner[i] == Some(k) <==> Owns(s', k, i)
    {
      assert s.owner[i] == Some(k) <==> Owns(s, k, i);
    }
  }

  /** A commit whose header count has not moved is always added: the checks of `addEntry` hold. */
  lemma UnmovedIsAdded(f: Format, s: State, id: Id)
    requires Inv(f, s) && id in s.tasks && s.tasks[id].phase.Ready? && s.tasks[id].phase.count == |s.chain.headers|
    ensures var r := s.tasks[id].phase;
            AfterAdd(s, id).chain == Append(s.chain, r.hash, r.header, s.tasks[id].job.content)
    ensures AfterAdd(s, id).tasks[id].phase == Added(|s.chain.headers|)
    ensures Sound(f, AfterAdd(s, id).chain)
    ensures AfterAdd(s, id).owner == s.owner + [Some(id)]
    ensures var t := s.tasks[id];
            && t.phase.hash == HeaderHash(f, t.phase.header)
            && NextHeader(f, s.chain, t.phase.now, t.job.typ, t.job.content, t.job.change, t.phase.header)
  {
    var t := s.tasks[id];
    PrepareIsNext(f, s.chain, t.phase.now, t.job.typ, t.job.content, t.job.change);
    assert TaskOk(f, s.chain, t);
    AppendSound(f, s.chain, t.phase.now, t.job.typ, t.job.content, t.job.change);
  }

  lemma AddKeeps(f: Format, s: State, id: Id)
    requires Inv(f, s) && id in s.tasks && s.tasks[id].phase.Ready?
    ensures Inv(f, AfterAdd(s, id)) && Extends(s.chain, AfterAdd(s, id).chain)
  {
    var t, s' := s.tasks[id], AfterAdd(s, id);
    assert TaskOk(f, s.chain, t);
    if t.phase.count == |s.chain.headers| {
      UnmovedIsAdded(f, s, id);
      forall k | k in s'.tasks ensures TaskOk(f, s'.chain, s'.tasks[k]) {
        if k == id { ReadyType(f, s.chain, t); } else { GrowthKeepsTask(f, s.chain, s'.chain, s.tasks[k]); }
      }
    }
    forall i, k: Id | 0 <= i < |s'.owner|
      ensures s'.owner[i] == Some(k) <==> Owns(s', k, i)
    {
      if i < |s.owner| {
        assert s.owner[i] == Some(k) <==> Owns(s, k, i);
      } else if k in s.tasks {
        assert TaskOk(f, s.chain, s.tasks[k]);
      }
    }
  }

  lemma ReadyType(f: Format, v: Value, t: Task)
    requires Sound(f, v) && TaskOk(f, v, t) && t.phase.Ready? && t.phase.count == |v.headers|
    ensures t.phase.header.typ == t.job.typ
  {
  }

  lemma NewEntryKeeps(f: Format, s: State, now: Time, typ: Bytes, c: Content)
    requires Inv(f, s)
    ensures Inv(f, AfterNewEntry(f, s, now, typ, c)) && Extends(s.chain, AfterNewEntry(f, s, now, typ, c).chain)
  {
    AppendSound(f, s.chain, now, typ, c, None);
    var s' := AfterNewEntry(f, s, now, typ, c);
    if s' != s {
      forall k | k in s'.tasks ensures TaskOk(f, s'.chain, s'.tasks[k]) {
        GrowthKeepsTask(f, s.chain, s'.chain, s.tasks[k]);
      }
      forall i, k: Id | 0 <= i < |s'.owner|
        ensures s'.owner[i] == Some(k) <==> Owns(s', k, i)
      {
        if i < |s.owner| {
          assert s.owner[i] == Some(k) <==> Owns(s, k, i);
        } else if k in s.tasks {
          assert TaskOk(f, s.chain, s.tasks[k]);
        }
      }
    }
  }

  lemma OtherKeeps(f: Format, s: State, step: Step)
    requires Inv(f, s) && Enabled(s, step) && (step.Start? || step.RefuseAction?)
    ensures Inv(f, After(f, s, step)) && After(f, s, step).chain == s.chain
  {
    var s' := After(f, s, step);
    forall k | k in s'.tasks ensures TaskOk(f, s'.chain, s'.tasks[k]) {
      if k in s.tasks { assert TaskOk(f, s.chain, s.tasks[k]); }
    }
    forall i, k: Id | 0 <= i < |s'.owner|
      ensures s'.owner[i] == Some(k) <==> Owns(s', k, i)
    {
      assert s.owner[i] == Some(k) <==> Owns(s, k, i);
    }
  }

  lemma StepKeeps(f: Format, s: State, step: Step)
    requires Inv(f, s) && Enabled(s, step)
    ensures Inv(f, After(f, s, step)) && Extends(s.chain, After(f, s, step).chain)
  {
    match step
    case PrepareHeader(id, now) => PrepareKeeps(f, s, id, now);
    case AddOrRetry(id) => AddKeeps(f, s, id);
    case NewEntry(now, typ, c) => NewEntryKeeps(f, s, now, typ, c);
    case Start(_, _) => OtherKeeps(f, s, step);
    case RefuseAction(_, _) => OtherKeeps(f, s, step);
  }

  // ---------- runs ----------

  const INITIAL := State(EMPTY, map[], [])

  lemma InitialInv(f: Format)
    ensures Inv(f, INITIAL)
  {
    EmptySound(f);
  }

  /** A run from the beginning. */
  ghost function RunFromStart(f: Format, steps: seq<Step>): (r: State)
    ensures Inv(f, r)
  {
    InitialInv(f);
    Run(f, INITIAL, steps)
  }

  /** The state after a schedule; a step that cannot be taken is skipped. */
  ghost function Run(f: Format, s: State, steps: seq<Step>): (r: State)
    requires Inv(f, s)
    ensures Inv(f, r)
    decreases |steps|
  {
    if steps == [] then s
    else if !Enabled(s, steps[0]) then Run(f, s, steps[1..])
    else
      StepKeeps(f, s, steps[0]);
      Run(f, After(f, s, steps[0]), steps[1..])
  }

  /** Whatever the schedule, every header links to the one before it and to the latest of its type before it. */
  lemma RacingChainIsLinked(f: Format, steps: seq<Step>, i: nat)
    requires i < |RunFromStart(f, steps).chain.headers|
    ensures var v := RunFromStart(f, steps).chain;
            && |v.headers| == |v.hashes| == |v.entries|
            && v.headers[i].headerLink == (if i == 0 then NULL_HASH else HeaderHash(f, v.headers[i - 1]))
            && v.headers[i].typeLink ==
                 (var k := Last(Types(v.headers[..i]), v.headers[i].typ);
                  if k < 0 then NULL_HASH else HeaderHash(f, v.headers[k]))
            && v.headers[i].entryLink == EntryHash(f, v.entries[i])
            && Validates(f, v, false)
  {
    var v := RunFromStart(f, steps).chain;
    assert Linked(f, v, i);
    if i > 0 { assert Linked(f, v, i - 1); }
    var k := Last(Types(v.headers[..i]), v.headers[i].typ);
    if k >= 0 { assert Linked(f, v, k); }
    SoundValidates(f, v);
  }

  /** The chain only ever grows at its end. */
  lemma {:induction false} RunExtends(f: Format, s: State, steps: seq<Step>)
    requires Inv(f, s)
    ensures Extends(s.chain, Run(f, s, steps).chain)
    decreases |steps|
  {
    if steps != [] {
      if Enabled(s, steps[0]) {
        StepKeeps(f, s, steps[0]);
        RunExtends(f, After(f, s, steps[0]), steps[1..]);
      } else {
        RunExtends(f, s, steps[1..]);
      }
    }
  }

  /**
   * A commit goes round again only when the chain grew since it prepared its header, and
   * then has gone round at most once for each header that others appended since it began.
   */
  lemma RetryMeansGrowth(f: Format, s: State, id: Id)
    requires Inv(f, s) && Enabled(s, AddOrRetry(id))
    ensures var t, t' := s.tasks[id], After(f, s, AddOrRetry(id)).tasks[id];
            && (t'.phase.Begin? <==> t.phase.count < |s.chain.headers|)
            && (t'.phase.Begin? <==> t'.retries == t.retries + 1)
            && (!t'.phase.Begin? ==> t'.phase == Added(|s.chain.headers|) && t'.retries == t.retries)
            && t'.retries <= |s.chain.headers| - t.started
    ensures forall i :: 0 <= i < |s.owner| ==> s.owner[i] != Some(id)
  {
    var t := s.tasks[id];
    assert TaskOk(f, s.chain, t);
    if t.phase.count == |s.chain.headers| { UnmovedIsAdded(f, s, id); }
    forall i | 0 <= i < |s.owner|
      ensures s.owner[i] != Some(id)
    {
      assert s.owner[i] == Some(id) <==> Owns(s, id, i);
    }
  }

  /** In every reachable state a finished commit is in the chain once, and an unfinished or failed one is not. */
  lemma CommittedOnce(f: Format, steps: seq<Step>, id: Id)
    requires id in RunFromStart(f, steps).tasks
    ensures var s := RunFromStart(f, steps);
            var t := s.tasks[id];
            && |s.owner| == |s.chain.headers| == |s.chain.entries|
            && t.retries <= |s.chain.headers| - t.started
            && (forall i :: 0 <= i < |s.owner| ==> (s.owner[i] == Some(id) <==> t.phase == Added(i)))
            && (t.phase.Added? ==>
                  && t.started <= t.phase.at < |s.chain.headers|
                  && s.chain.entries[t.phase.at] == t.job.content && s.chain.headers[t.phase.at].typ == t.job.typ)
  {
    var s := RunFromStart(f, steps);
    assert TaskOk(f, s.chain, s.tasks[id]);
    forall i | 0 <= i < |s.owner|
      ensures s.owner[i] == Some(id) <==> s.tasks[id].phase == Added(i)
    {
      assert s.owner[i] == Some(id) <==> Owns(s, id, i);
    }
  }

  /** The chain `w` is `v` with one more entry, under the header that comes next. */
  ghost predicate Grows(f: Format, v: Value, w: Value, now: Time, typ: Bytes, c: Content, change: Option<Change>) {
    && |w.headers| == |v.headers| + 1 && w.headers[..|v.headers|] == v.headers && w.entries == v.entries + [c]
    && w.hashes == v.hashes + [HeaderHash(f, w.headers[|v.headers|])]
    && NextHeader(f, v, now, typ, c, change, w.headers[|v.headers|])
  }

  /**
   * A commit gets its header exactly when its entry can be signed and the entry it changes has a hash;
   * left alone from then on it is added in one round, with its own entry, type, time and change.
   */
  lemma AloneIsAdded(f: Format, s: State, id: Id, now: Time)
    requires Inv(f, s) && Enabled(s, PrepareHeader(id, now))
    ensures var j, s1 := s.tasks[id].job, After(f, s, PrepareHeader(id, now));
            && Inv(f, s1) && s1.chain == s.chain
            && (if CanPrepare(f, j.content, j.change) then
                  && Enabled(s1, AddOrRetry(id))
                  && var s2 := After(f, s1, AddOrRetry(id));
                  && s2.tasks[id].phase == Added(|s.chain.headers|) && s2.owner == s.owner + [Some(id)]
                  && Grows(f, s.chain, s2.chain, now, j.typ, j.content, j.change)
                else s1.tasks[id].phase.Failed?)
  {
    var j, s1 := s.tasks[id].job, After(f, s, PrepareHeader(id, now));
    PrepareKeeps(f, s, id, now);
    PrepareIsNext(f, s.chain, now, j.typ, j.content, j.change);
    if CanPrepare(f, j.content, j.change) { UnmovedIsAdded(f, s1, id); }
  }

  /** A direct entry is added exactly when it can be signed. */
  lemma NewEntryIsAdded(f: Format, s: State, now: Time, typ: Bytes, c: Content)
    requires Inv(f, s)
    ensures var s' := After(f, s, NewEntry(now, typ, c));
            if CanPrepare(f, c, None) then
              s'.tasks == s.tasks && s'.owner == s.owner + [None] && Grows(f, s.chain, s'.chain, now, typ, c, None)
            else s' == s
  {
    PrepareIsNext(f, s.chain, now, typ, c, None);
  }

  /** A step changes no other commit than its own, and never what is to be committed. */
  lemma StepKeepsJobs(f: Format, s: State, step: Step, id: Id)
    requires Inv(f, s) && Enabled(s, step) && id in s.tasks
    ensures var s' := After(f, s, step);
            && id in s'.tasks && s'.tasks[id].job == s.tasks[id].job
            && (s'.tasks[id] != s.tasks[id] ==> !step.NewEntry? && step.id == id)
  {
  }

  /** Under any schedule a commit stays what it was started as. */
  lemma {:induction false} RunKeepsJob(f: Format, s: State, steps: seq<Step>, id: Id)
    requires Inv(f, s) && id in s.tasks
    ensures id in Run(f, s, steps).tasks && Run(f, s, steps).tasks[id].job == s.tasks[id].job
    decreases |steps|
  {
    if steps != [] {
      if Enabled(s, steps[0]) {
        StepKeeps(f, s, steps[0]);
        StepKeepsJobs(f, s, steps[0], id);
        RunKeepsJob(f, After(f, s, steps[0]), steps[1..], id);
      } else {
        RunKeepsJob(f, s, steps[1..], id);
      }
    }
  }
}
