/**
 * The concurrent lookup of kad_query.go as a transition system: the caller of `Run`, the
 * spawner, one worker per peer, the queue goroutine and an outside cancellation take
 * their steps in any order.
 */
module Lookup {
  import opened Collections

  /** Peer ids; here only equality of ids matters. */
  type Peer = nat

  /** What dialing a peer would give. */
  datatype Dial = Connected | Reachable | Unreachable

  /** What asking a peer gave; `NoContact` when it could not be dialed. */
  datatype Answer = NoContact | Failed | Success | Closer(peers: seq<Peer>)

  /** A query and the network it meets. `world` holds every peer that can come up. */
  datatype Env = Env(
    self: Peer,
    starts: seq<Peer>,
    concurrency: nat,
    world: set<Peer>,
    dial: Peer -> Dial,
    answer: Peer -> Answer,
    metric: Peer -> nat)

  ghost predicate WellFormed(e: Env) {
    && e.starts != []
    && (forall i :: 0 <= i < |e.starts| ==> e.starts[i] in e.world)
    && (forall p, i :: p in e.world && e.answer(p).Closer? && 0 <= i < |e.answer(p).peers|
          ==> e.answer(p).peers[i] in e.world)
    && (forall p :: p in e.world ==> !e.answer(p).NoContact?)
  }

  /** Who is adding peers: the caller of `Run`, or the worker of a peer. */
  datatype Adder = Caller | Worker(peer: Peer)

  /** Where a peer of `peersSeen` stands. */
  datatype Stage =
    | Claimed(owner: Adder)            // added to peersSeen, not yet counted
    | Offered(owner: Adder)            // counted, being sent to the queue
    | Dropped                         // counted, not sent because the runner is closing
    | Queued                          // taken by the queue
    | Started                         // its worker runs, with a token
    | Dialing                         // token given back for the time of the dial
    | DialFailed                      // waiting for a token, only to leave
    | DialDone                        // waiting for a token, to ask
    | Asking                          // query function running, with a token
    | Adding                          // going through the closer peers, with a token
    | Leaving                         // about to count itself off, with a token
    | Returning                       // counted off, about to give its token back
    | Finished

  /** What `Run` returns: the last result, nothing, the first of the errors, or the end of the context. */
  datatype Outcome = Found(peer: Peer) | NotFound | AllFailed(first: Peer) | Deadline

  datatype Main = Starting | Waiting | Finishing | Ended(outcome: Outcome)

  datatype Spawner = NotStarted | Idle | HasToken | Stopped

  /** How far an adder is in its list; `busy` from claiming a peer to handing it over. */
  datatype Cursor = Cursor(todo: seq<Peer>, next: nat, busy: bool)

  datatype State = State(
    main: Main,
    spawner: Spawner,
    adding: map<Adder, Cursor>,
    stage: map<Peer, Stage>,     // the keys are peersSeen
    reply: map<Peer, Answer>,    // what each peer's attempt gave
    tokens: int,               // in the rateLimit channel
    lost: int,                 // taken by a spawner that then stopped
    count: int,                // peersRemaining
    done: bool,                // peersRemaining reached zero
    closing: bool,
    early: bool,               // closing began before done
    queueStopped: bool,
    result: Option<Peer>,        // who gave the result, the last one if several did
    errs: seq<Peer>,             // peers whose attempt failed, in order
    started: seq<Peer>,          // workers spawned, in order
    asked: seq<Peer>)            // query function calls, in order

  /** Adding the next peer of a list: pass over it, or claim, count and hand it over. */
  datatype AddStep =
    | Skip(a: Adder) | Claim(a: Adder) | Count(a: Adder, x: Peer) | Send(a: Adder, x: Peer) | GiveUp(a: Adder, x: Peer)

  /** The life of a worker; `aborted` when closing cut its dial or its question off. */
  datatype WorkStep =
    | Spawn(p: Peer) | Look(p: Peer) | DialEnd(p: Peer, aborted: bool) | Retake(p: Peer)
    | AskEnd(p: Peer, aborted: bool) | AllAdded(p: Peer) | CountOff(p: Peer) | GiveBack(p: Peer)

  /** The caller of `Run`, the spawner, the queue goroutine, and closing. */
  datatype ControlStep =
    | Begin | TakeToken | StopSpawner | SeeDone | SeeClosed | Return
    | CloseOnSuccess | CloseOutside | StopQueue

  datatype Step = Add(add: AddStep) | Work(work: WorkStep) | Control(control: ControlStep)

  function Init(e: Env): State {
    State(Starting, NotStarted, map[Caller := Cursor(e.starts, 0, false)], map[], map[], e.concurrency, 0, 0,
          false, false, false, false, None, [], [], [])
  }

  // ---------- adders ----------

  /** `a` is adding and has not claimed its next peer yet. */
  predicate Ready(s: State, a: Adder) {
    a in s.adding && !s.adding[a].busy && s.adding[a].next < |s.adding[a].todo|
  }

  /** `a` is adding `x`, which stands at `g`. */
  predicate Handling(s: State, a: Adder, x: Peer, g: Stage) {
    && a in s.adding && s.adding[a].busy && s.adding[a].next < |s.adding[a].todo|
    && s.adding[a].todo[s.adding[a].next] == x
    && At(s, x, g)
  }

  predicate ListEnded(s: State, a: Adder) {
    a in s.adding && !s.adding[a].busy && s.adding[a].next == |s.adding[a].todo|
  }

  function Item(s: State, a: Adder): Peer
    requires a in s.adding && s.adding[a].next < |s.adding[a].todo|
  {
    s.adding[a].todo[s.adding[a].next]
  }

  // ---------- workers ----------

  predicate HoldsToken(g: Stage) {
    g.Started? || g.Asking? || g.Adding? || g.Leaving? || g.Returning?
  }

  predicate Active(g: Stage) {
    HoldsToken(g) || g.Dialing? || g.DialFailed? || g.DialDone?
  }

  predicate NobodyActive(s: State) {
    s.spawner == Stopped && forall p :: p in s.stage ==> !Active(s.stage[p])
  }

  predicate At(s: State, p: Peer, g: Stage) {
    p in s.stage && s.stage[p] == g
  }

  ghost predicate NearestQueued(e: Env, s: State, p: Peer) {
    && At(s, p, Queued)
    && forall q :: At(s, q, Queued) ==> e.metric(p) <= e.metric(q)
  }

  /** The answer of a peer whose worker is neither cut off in its dial nor in its question. */
  function Attempt(e: Env, p: Peer): Answer {
    if e.dial(p) == Unreachable then NoContact else e.answer(p)
  }

  // ---------- steps ----------

  predicate AddEnabled(e: Env, s: State, step: AddStep) {
    match step
    case Skip(a) => Ready(s, a) && (Item(s, a) == e.self || Item(s, a) in s.stage)
    case Claim(a) => Ready(s, a) && Item(s, a) != e.self && Item(s, a) !in s.stage
    case Count(a, x) => Handling(s, a, x, Claimed(a))
    case Send(a, x) => Handling(s, a, x, Offered(a)) && !s.queueStopped
    case GiveUp(a, x) => Handling(s, a, x, Offered(a)) && s.closing
  }

  ghost predicate WorkEnabled(e: Env, s: State, step: WorkStep) {
    match step
    case Spawn(p) => s.spawner == HasToken && !s.queueStopped && NearestQueued(e, s, p)
    case Look(p) => At(s, p, Started) && (e.dial(p) == Connected || s.tokens < e.concurrency)
    case DialEnd(p, aborted) => At(s, p, Dialing) && (aborted ==> s.closing)
    case Retake(p) => (At(s, p, DialFailed) || At(s, p, DialDone)) && s.tokens > 0
    case AskEnd(p, aborted) => At(s, p, Asking) && (aborted ==> s.closing)
    case AllAdded(p) => At(s, p, Adding) && ListEnded(s, Worker(p))
    case CountOff(p) => At(s, p, Leaving)
    case GiveBack(p) => At(s, p, Returning) && s.tokens < e.concurrency
  }

  predicate ControlEnabled(s: State, step: ControlStep) {
    match step
    case Begin => s.main == Starting && s.spawner == NotStarted && ListEnded(s, Caller)
    case TakeToken => s.spawner == Idle && s.tokens > 0
    case StopSpawner => (s.spawner == Idle || s.spawner == HasToken) && (s.done || s.closing)
    case SeeDone => s.main == Waiting && s.done
    case SeeClosed => s.main == Waiting && s.closing && NobodyActive(s)
    case Return => s.main == Finishing && NobodyActive(s)
    case CloseOnSuccess => s.result.Some? && !s.closing
    case CloseOutside => !s.closing
    case StopQueue => s.closing && !s.queueStopped
  }

  ghost predicate Enabled(e: Env, s: State, step: Step) {
    match step
    case Add(x) => AddEnabled(e, s, x)
    case Work(x) => WorkEnabled(e, s, x)
    case Control(x) => ControlEnabled(s, x)
  }

  // What the steps change, one part of the state after the other.

  function MovedCursor(c: Cursor, step: AddStep): Cursor {
    match step
    case Claim(_) => Cursor(c.todo, c.next, true)
    case Count(_, _) => c
    case _ => Cursor(c.todo, c.next + 1, false)
  }

  /** Where the peer stands that is being added. */
  function HandedTo(step: AddStep): Stage {
    match step
    case Claim(a) => Claimed(a)
    case Count(a, _) => Offered(a)
    case GiveUp(_, _) => Dropped
    case _ => Queued
  }

  function AddAfter(e: Env, s: State, step: AddStep): State
    requires AddEnabled(e, s, step)
  {
    var a := step.a;
    s.(adding := s.adding[a := MovedCursor(s.adding[a], step)],
       stage := if step.Skip? then s.stage else s.stage[Item(s, a) := HandedTo(step)],
       count := if step.Count? then s.count + 1 else s.count)
  }

  /** Where the worker's peer stands after the step. */
  function NextStage(e: Env, s: State, step: WorkStep): Stage {
    match step
    case Spawn(_) => Started
    case Look(p) => if e.dial(p) == Connected then Asking else Dialing
    case DialEnd(p, aborted) => if aborted || e.dial(p) == Unreachable then DialFailed else DialDone
    case Retake(p) => if At(s, p, DialFailed) then Leaving else Asking
    case AskEnd(_, _) => if AskReply(e, step).Closer? then Adding else Leaving
    case AllAdded(_) => Leaving
    case CountOff(_) => Returning
    case GiveBack(_) => Finished
  }

  /** What the query function returns, an error when it is cut off. */
  function AskReply(e: Env, step: WorkStep): Answer
    requires step.AskEnd?
  {
    if step.aborted then Failed else e.answer(step.p)
  }

  /** What became of the attempt, once that is known. */
  function NewReply(e: Env, step: WorkStep): Option<Answer> {
    match step
    case DialEnd(p, aborted) => if aborted || e.dial(p) == Unreachable then Some(NoContact) else None
    case AskEnd(_, _) => Some(AskReply(e, step))
    case _ => None
  }

  predicate IsError(r: Option<Answer>) {
    r == Some(NoContact) || r == Some(Failed)
  }

  /** A worker gives its token back before it dials and when it ends, and takes one after the dial. */
  function TokenChange(e: Env, step: WorkStep): int {
    match step
    case Look(p) => if e.dial(p) == Connected then 0 else 1
    case Retake(_) => -1
    case GiveBack(_) => 1
    case _ => 0
  }

  function NextAdding(e: Env, s: State, step: WorkStep): map<Adder, Cursor> {
    if step.AskEnd? && AskReply(e, step).Closer? then
      s.adding[Worker(step.p) := Cursor(AskReply(e, step).peers, 0, false)]
    else if step.AllAdded? then s.adding - {Worker(step.p)}
    else s.adding
  }

  ghost function WorkAfter(e: Env, s: State, step: WorkStep): State
    requires WorkEnabled(e, s, step)
  {
    var p, g, r := step.p, NextStage(e, s, step), NewReply(e, step);
    s.(stage := s.stage[p := g],
       spawner := if step.Spawn? then Idle else s.spawner,
       adding := NextAdding(e, s, step),
       reply := if r.Some? then s.reply[p := r.value] else s.reply,
       tokens := s.tokens + TokenChange(e, step),
       count := if step.CountOff? then s.count - 1 else s.count,
       done := s.done || (step.CountOff? && s.count == 1),
       result := if r == Some(Success) then Some(p) else s.result,
       errs := if IsError(r) then s.errs + [p] else s.errs,
       started := if step.Spawn? then s.started + [p] else s.started,
       asked := if g == Asking then s.asked + [p] else s.asked)
  }

  /** The error of every failed peer was recorded, or there is a result. */
  function Returned(s: State): Outcome {
    if s.result.Some? then Found(s.result.value)
    else if |s.errs| > 0 && |s.errs| == |s.stage| then AllFailed(s.errs[0])
    else NotFound
  }

  function NextMain(s: State, step: ControlStep): Main {
    match step
    case Begin => Waiting
    case SeeDone => Finishing
    case SeeClosed => Ended(if s.result.Some? then Found(s.result.value) else Deadline)
    case Return => Ended(Returned(s))
    case _ => s.main
  }

  function NextSpawner(s: State, step: ControlStep): Spawner {
    match step
    case Begin => Idle
    case TakeToken => HasToken
    case StopSpawner => Stopped
    case _ => s.spawner
  }

  predicate Closes(step: ControlStep) {
    step.SeeDone? || step.CloseOnSuccess? || step.CloseOutside?
  }

  function ControlAfter(s: State, step: ControlStep): State
    requires ControlEnabled(s, step)
  {
    s.(main := NextMain(s, step),
       spawner := NextSpawner(s, step),
       adding := if step.Begin? then s.adding - {Caller} else s.adding,
       closing := s.closing || Closes(step),
       early := s.early || (Closes(step) && !s.closing && !s.done),
       tokens := if step.TakeToken? then s.tokens - 1 else s.tokens,
       lost := if step.StopSpawner? && s.spawner == HasToken then 1 else s.lost,
       queueStopped := s.queueStopped || step.StopQueue?)
  }

  ghost function After(e: Env, s: State, step: Step): State
    requires Enabled(e, s, step)
  {
    match step
    case Add(x) => AddAfter(e, s, x)
    case Work(x) => WorkAfter(e, s, x)
    case Control(x) => ControlAfter(s, x)
  }

  /** The steps can be taken one after the other from the start. */
  ghost predicate CanRun(e: Env, steps: seq<Step>)
    decreases |steps|, 0
  {
    steps == [] || (CanRun(e, steps[..|steps| - 1])
                    && Enabled(e, RunTo(e, steps[..|steps| - 1]), steps[|steps| - 1]))
  }

  /** The state they lead to. */
  ghost function RunTo(e: Env, steps: seq<Step>): State
    requires CanRun(e, steps)
    decreases |steps|, 1
  {
    if steps == [] then Init(e)
    else After(e, RunTo(e, steps[..|steps| - 1]), steps[|steps| - 1])
  }
}
