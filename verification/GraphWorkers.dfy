/**
 A fleet of graph workers advancing one run (crates/graph-worker/src/runtime.rs), over the store
 contract of crates/postgres/src/ir_runs.rs: every lease raises the run's epoch, and an append is
 accepted only under the current epoch. A worker is a small program whose store and executor calls
 interleave freely with those of other workers; a sequence of `Step`s is one interleaving, and a
 step that does not apply changes nothing. Between any two steps a worker may stall, crash, or be
 superseded by a later lease.
 */
module GraphWorkers {
  import opened Wrappers
  import opened Identifiers
  import opened Definition
  import opened RunEvents
  import opened RunStates
  import opened RunEffects
  import RunResults
  import opened Waits
  import opened Stopping
  import opened DecisionCore
  import opened RunProtocol
  import Text

  type WorkerId = string

  datatype NodeOutcome =
    | NodeDone(outputs: Outputs, control: map<string, ControlValue>)
    | NodeRefused(failure: FailureKind, detail: string)

  datatype EffectOutcome =
    | Performed(receipt: Digest)
    | Declined(failure: FailureKind, detail: string)
    | Unknown

  /** Where a leased worker is in its program: what it will do with its next store or executor call. */
  datatype Phase =
    | Ready
    | Folded
    | Appending(event: RunEvent)
    | OpeningNode(node: Identifier)
    | RunningNode(node: Identifier, startedAt: nat)
    | ClosingNode(node: Identifier, outcome: NodeOutcome)
    | OpeningEffect(attempt: EffectAttempt)
    | ClaimingEffect(attempt: EffectAttempt)
    | PerformingEffect(attempt: EffectAttempt, claimedAt: nat)
    | ResolvingEffect(attempt: EffectAttempt, result: EffectOutcome)
    | ClosingEffect(attempt: EffectAttempt, result: EffectOutcome)
    | Compensating(compensation: Compensation)
    | RecordingCompensation(compensation: Compensation, result: EffectOutcome)

  /** `seen` is the log this worker last read: when it took the lease, or at its last fold. */
  datatype Worker = Worker(epoch: nat, seen: seq<RecordedEvent>, now: Time, phase: Phase)

  /** A request an executor received, with the log position that authorised it. */
  datatype Call =
    | NodeCall(epoch: nat, node: Identifier, startedAt: nat)
    | EffectCall(epoch: nat, attempt: EffectAttempt, claimedAt: nat, result: EffectOutcome)
    | CompensationCall(epoch: nat, compensation: Compensation)

  datatype System = System(
    epoch: nat, log: seq<RecordedEvent>, workers: map<WorkerId, Worker>, calls: seq<Call>)

  datatype Step =
    | Lease(worker: WorkerId)
    | LeaseToCancel(worker: WorkerId, who: Identifier, now: Time)
    | Stop(worker: WorkerId)
    | FoldTheLog(worker: WorkerId, now: Time)
    | AnswerSignal(worker: WorkerId, signal: Signal)
    | DecideNow(worker: WorkerId, identity: Identifier)
    | Append(worker: WorkerId, at: Time)
    | RunNode(worker: WorkerId, ran: NodeOutcome)
    | PerformIt(worker: WorkerId, result: EffectOutcome)
    | CompensateIt(worker: WorkerId, result: EffectOutcome)

  /** How the database trigger moves the status column when an event of this kind is stored. */
  function StatusAfter(event: RunEvent, before: RunStatus): RunStatus {
    match event
    case Started(_) => Running
    case NodeStarted(_) => Running
    case Resumed(_, _) => Running
    case Suspended(_) => Waiting
    case Completed(_) => Complete
    case Failed(_) => Failure
    case Cancelled(_) => Cancel
    case _ => before
  }

  /** The status column: a projection of event kinds that leasing reads instead of folding. */
  function ProjectedStatus(log: seq<RecordedEvent>): RunStatus {
    if log == [] then Queued else StatusAfter(log[|log| - 1].event, ProjectedStatus(log[..|log| - 1]))
  }

  // ---- What a decision makes the worker do first. ----

  function FindClaim(claims: seq<OutstandingEffect>, node: Identifier, effect: Identifier):
    (found: Option<OutstandingEffect>)
    ensures found.Some? ==> found.value in claims && found.value.node == node && found.value.effect == effect
    ensures found.None? ==> forall claim :: claim in claims ==> !(claim.node == node && claim.effect == effect)
  {
    if claims == [] then None
    else if claims[0].node == node && claims[0].effect == effect then Some(claims[0])
    else FindClaim(claims[1..], node, effect)
  }

  function BeginEffect(state: RunState, attempt: EffectAttempt): Phase {
    if attempt.node in state.running then ClaimingEffect(attempt) else OpeningEffect(attempt)
  }

  /** The attempt to make: recovered from the claim left behind, or claimed afresh. */
  function AttemptFor(
    config: Config, state: RunState, node: Identifier, effect: Identifier, attempt: nat, recover: bool):
    Option<EffectAttempt>
  {
    match EffectOf(config, node, effect)
    case None => None
    case Some(declared) =>
      var claim := FindClaim(state.outstanding, node, effect);
      if recover && claim.Some? then Some(Recovered(claim.value, attempt))
      else Claim(declared, config.run, node, attempt)
  }

  function InvariantOutcomes(state: RunState, invariants: seq<LoopInvariant>): (outcomes: Option<seq<InvariantOutcome>>)
    ensures outcomes.Some? ==> OutcomesRead(state, invariants, outcomes.value)
  {
    if invariants == [] then Some([])
    else
      match (state.ControlOf(invariants[0].evaluator, invariants[0].port), InvariantOutcomes(state, invariants[1..]))
      case (Some(Bool(held)), Some(rest)) =>
        Some([InvariantOutcome(invariants[0].id, held, invariants[0].timing)] + rest)
      case _ => None
  }

  function ProgressReading(state: RunState, measure: Option<ProgressMeasure>): Option<Option<int>> {
    match measure
    case None => Some(None)
    case Some(declared) =>
      match state.ControlOf(declared.measuredBy, declared.port)
      case Some(Integer(number)) => Some(Some(number))
      case _ => None
  }

  /** Milliseconds since the iteration was opened, never negative. */
  function IterationWallMs(state: RunState, region: Identifier, now: Time): nat {
    match state.LoopOf(region).openedAt
    case None => 0
    case Some(began) => var elapsed := SaturatingSub(now, began); if elapsed < 0 then 0 else elapsed
  }

  /** What an iteration did, read from the log alone; `None` when a declared reading is missing. */
  function RecordIteration(definition: Definition, state: RunState, region: Identifier, index: nat, now: Time):
    (record: Option<IterationRecord>)
    ensures record.Some? ==> record.value.index == index && ReadFromTheLog(definition, state, region, record.value)
  {
    match FindRegion(definition.graph.regions, region)
    case None => None
    case Some(declared) =>
      if declared.kind.Plain? then None
      else
        match (InvariantOutcomes(state, declared.kind.spec.invariants),
               ProgressReading(state, declared.kind.spec.progress))
        case (Some(invariants), Some(progress)) =>
          Some(IterationRecord(index, state.OutputsOf(declared.entry), state.OutputsOf(declared.exit),
                               invariants, progress,
                               LoopBudget(1, IterationWallMs(state, region, now), 0, 0, 0)))
        case _ => None
  }

  function Members(definition: Definition, region: Identifier): (members: set<Identifier>)
    ensures ResetsItsRegion(Config("", definition), region, members)
  {
    match FindRegion(definition.graph.regions, region)
    case None => {}
    case Some(declared) => declared.nodes
  }

  function WallMsOf(definition: Definition, node: Identifier): nat {
    match definition.graph.NodeOf(node)
    case None => 0
    case Some(declared) => declared.wallMs
  }

  /** The first thing to do about a decision; `None` when the worker puts the run down. */
  function Begin(config: Config, state: RunState, decision: Decision, now: Time, identity: Identifier): Option<Phase> {
    match decision
    case Start => Some(Appending(Started(identity)))
    case StartNode(node) =>
      if config.definition.graph.NodeOf(node).None? then None else Some(OpeningNode(node))
    case PerformEffect(node, effect, attempt) =>
      (match AttemptFor(config, state, node, effect, attempt, false)
       case None => None
       case Some(claim) => Some(BeginEffect(state, claim)))
    case RetryClaimedEffect(node, effect, attempt) =>
      (match AttemptFor(config, state, node, effect, attempt, true)
       case None => None
       case Some(claim) => Some(BeginEffect(state, claim)))
    case HaltUncertainEffect(node, effect) =>
      var claim := FindClaim(state.outstanding, node, effect);
      Some(Appending(EffectUncertain(node, effect, if claim.Some? then claim.value.attempt else 0)))
    case StopLoop(region, reason) => Some(Appending(LoopStopped(region, reason)))
    case StartIteration(region, index) =>
      Some(Appending(IterationStarted(region, index, Members(config.definition, region))))
    case FinishIteration(region, index) =>
      (match RecordIteration(config.definition, state, region, index, now)
       case None => None
       case Some(record) => Some(Appending(IterationFinished(region, record))))
    case Compensate(compensation) =>
      if !Declares(config, compensation.node, compensation.effect) then None else Some(Compensating(compensation))
    case CancelRun(who) => Some(Appending(Cancelled(who)))
    case TimeOutNode(node) =>
      Some(Appending(NodeFailed(node, BudgetExhaustion,
                                "the node passed its declared wall-time budget of "
                                + Text.Decimal(WallMsOf(config.definition, node)) + "ms")))
    case Suspend(wait) => Some(Appending(Suspended(wait)))
    case ResumeWait(wait) => Some(Appending(Resumed(wait, identity)))
    case CompleteRun => Some(Appending(Completed(RunResults.Flattened(state.finished))))
    case FailRun(reason) => Some(Appending(Failed(reason)))
    case Idle => None
  }

  // ---- The appends of each phase. ----

  /** The event the worker is about to append, if its next call is an append. */
  function PendingEvent(phase: Phase): Option<RunEvent> {
    match phase
    case Appending(event) => Some(event)
    case OpeningNode(node) => Some(NodeStarted(node))
    case ClosingNode(node, NodeDone(outputs, control)) => Some(NodeFinished(node, outputs, control))
    case ClosingNode(node, NodeRefused(failure, detail)) => Some(NodeFailed(node, failure, detail))
    case OpeningEffect(attempt) => Some(NodeStarted(attempt.node))
    case ClaimingEffect(attempt) => Some(attempt.Claimed())
    case ResolvingEffect(attempt, Performed(receipt)) => Some(attempt.Finalized(receipt))
    case ResolvingEffect(attempt, Declined(_, detail)) => Some(attempt.Abandoned(detail))
    case ClosingEffect(attempt, Performed(_)) => Some(NodeFinished(attempt.node, map[], map[]))
    case ClosingEffect(attempt, Declined(failure, detail)) => Some(NodeFailed(attempt.node, failure, detail))
    case RecordingCompensation(compensation, Performed(receipt)) =>
      Some(Compensated(compensation.node, compensation.effect, compensation.route, receipt))
    case RecordingCompensation(compensation, _) => Some(Failed(EffectDoubt(compensation.node, compensation.effect)))
    case _ => None
  }

  /** Where the worker is once that append was recorded at `position`. */
  function PhaseAfterAppend(phase: Phase, position: nat): Phase {
    match phase
    case OpeningNode(node) => RunningNode(node, position)
    case OpeningEffect(attempt) => ClaimingEffect(attempt)
    case ClaimingEffect(attempt) => PerformingEffect(attempt, position)
    case ResolvingEffect(attempt, result) => ClosingEffect(attempt, result)
    case _ => Ready
  }

  // ---- The steps. ----

  function WithPhase(s: System, w: WorkerId, phase: Phase): System
    requires w in s.workers
  {
    s.(workers := s.workers[w := s.workers[w].(phase := phase)])
  }

  function Dropped(s: System, w: WorkerId): System {
    s.(workers := s.workers - {w})
  }

  /** An accepted append: the next position, under the lease's epoch. */
  function Recorded(s: System, w: WorkerId, event: RunEvent, at: Time, next: Phase): System
    requires w in s.workers
  {
    WithPhase(s.(log := s.log + [RecordedEvent(|s.log|, s.workers[w].epoch, at, event)]), w, next)
  }

  function DoLease(s: System, w: WorkerId, phase: Phase, now: Time): System {
    if ProjectedStatus(s.log).IsTerminal() then s
    else s.(epoch := s.epoch + 1, workers := s.workers[w := Worker(s.epoch + 1, s.log, now, phase)])
  }

  function DoFold(s: System, w: WorkerId, now: Time): System {
    if w !in s.workers || !s.workers[w].phase.Ready? then s
    else if Fold(s.log).Err? then Dropped(s, w)
    else s.(workers := s.workers[w := s.workers[w].(seen := s.log, now := now, phase := Folded)])
  }

  /** A signal that matches resumes the run; a refused append falls through to `decide`. */
  function DoSignal(s: System, w: WorkerId, signal: Signal): System {
    if w !in s.workers || !s.workers[w].phase.Folded? || Fold(s.workers[w].seen).Err? then s
    else
      var worker := s.workers[w];
      match Resume(Fold(worker.seen).value.waitingOn, signal, worker.now)
      case Err(_) => s
      case Ok(event) => if worker.epoch != s.epoch then s else Recorded(s, w, event, worker.now, Ready)
  }

  function DoDecide(config: Config, s: System, w: WorkerId, identity: Identifier): System {
    if w !in s.workers || !s.workers[w].phase.Folded? || Fold(s.workers[w].seen).Err? then s
    else
      var worker := s.workers[w];
      var state := Fold(worker.seen).value;
      match Begin(config, state, Decide(config.definition, state, worker.now), worker.now, identity)
      case None => Dropped(s, w)
      case Some(phase) => WithPhase(s, w, phase)
  }

  /** A refused append ends the lease: somebody else owns the run now. */
  function DoAppend(s: System, w: WorkerId, at: Time): System {
    if w !in s.workers || PendingEvent(s.workers[w].phase).None? then s
    else if s.workers[w].epoch != s.epoch then Dropped(s, w)
    else
      Recorded(s, w, PendingEvent(s.workers[w].phase).value, at, PhaseAfterAppend(s.workers[w].phase, |s.log|))
  }

  /** What a decision writes before any executor is asked carries the time it was made for; the rest is read anew. */
  function StampFor(s: System, w: WorkerId, later: Time): Time {
    if w in s.workers && ByDecision(s.workers[w].phase) then s.workers[w].now else later
  }

  predicate ByDecision(phase: Phase) {
    phase.Appending? || phase.OpeningNode? || phase.OpeningEffect? || phase.ClaimingEffect?
  }

  function DoNode(s: System, w: WorkerId, ran: NodeOutcome): System {
    if w !in s.workers || !s.workers[w].phase.RunningNode? then s
    else
      var worker := s.workers[w];
      WithPhase(s.(calls := s.calls + [NodeCall(worker.epoch, worker.phase.node, worker.phase.startedAt)]),
                w, ClosingNode(worker.phase.node, ran))
  }

  function DoEffect(s: System, w: WorkerId, result: EffectOutcome): System {
    if w !in s.workers || !s.workers[w].phase.PerformingEffect? then s
    else
      var worker := s.workers[w];
      WithPhase(s.(calls := s.calls + [EffectCall(worker.epoch, worker.phase.attempt, worker.phase.claimedAt, result)]),
                w, if result.Unknown? then Ready else ResolvingEffect(worker.phase.attempt, result))
  }

  function DoCompensate(s: System, w: WorkerId, result: EffectOutcome): System {
    if w !in s.workers || !s.workers[w].phase.Compensating? then s
    else
      var worker := s.workers[w];
      WithPhase(s.(calls := s.calls + [CompensationCall(worker.epoch, worker.phase.compensation)]),
                w, RecordingCompensation(worker.phase.compensation, result))
  }

  function Do(config: Config, s: System, step: Step): System {
    match step
    case Lease(w) => DoLease(s, w, Ready, 0)
    case LeaseToCancel(w, who, now) => DoLease(s, w, Appending(CancellationRequested(who)), now)
    case Stop(w) => Dropped(s, w)
    case FoldTheLog(w, now) => DoFold(s, w, now)
    case AnswerSignal(w, signal) => DoSignal(s, w, signal)
    case DecideNow(w, identity) => DoDecide(config, s, w, identity)
    case Append(w, at) => DoAppend(s, w, StampFor(s, w, at))
    case RunNode(w, ran) => DoNode(s, w, ran)
    case PerformIt(w, result) => DoEffect(s, w, result)
    case CompensateIt(w, result) => DoCompensate(s, w, result)
  }

  /** A freshly created run: its admission event, no lease. */
  function Created(admission: RunEvent, at: Time): System
    requires admission.Admission?
  {
    System(0, [RecordedEvent(0, 0, at, admission)], map[], [])
  }

  function Run(config: Config, s: System, steps: seq<Step>): System {
    if steps == [] then s else Do(config, Run(config, s, steps[..|steps| - 1]), steps[|steps| - 1])
  }
}
