/** The decision function over definition, state and time (crates/runtime/src/decide.rs). */
module DecisionCore {
  import opened Wrappers
  import opened Identifiers
  import opened Definition
  import opened RunEvents
  import opened RunStates
  import Loops
  import opened Stopping

  datatype Decision =
    | Start
    | StartNode(node: Identifier)
    | PerformEffect(node: Identifier, effect: Identifier, attempt: nat)
    | RetryClaimedEffect(node: Identifier, effect: Identifier, attempt: nat)
    | HaltUncertainEffect(node: Identifier, effect: Identifier)
    | StopLoop(region: Identifier, reason: StopReason)
    | StartIteration(region: Identifier, index: nat)
    | FinishIteration(region: Identifier, index: nat)
    | Compensate(compensation: Compensation)
    | CancelRun(who: Identifier)
    | TimeOutNode(node: Identifier)
    | Suspend(wait: Wait)
    | ResumeWait(wait: Wait)
    | CompleteRun
    | FailRun(failed: RunFailure)
    | Idle

  function Decide(definition: Definition, state: RunState, now: Time): Decision {
    var next := DecideNext(definition, state, now);
    var owed := PendingCompensations(definition, state);
    if next.FailRun? && owed != [] then Compensate(owed[0]) else next
  }

  function DecideNext(definition: Definition, state: RunState, now: Time): Decision {
    if state.status.IsTerminal() then Idle
    else
      match OutstandingDecision(definition, state)
      case Some(decision) => decision
      case None =>
        if state.uncertain != [] then FailRun(EffectDoubt(state.uncertain[0].0, state.uncertain[0].1))
        else
          match CancellationDecision(definition, state)
          case Some(decision) => decision
          case None =>
            if state.status.Waiting? then WaitDecision(state, now)
            else if state.status.Queued? then Start
            else DecideRunning(definition, state, now)
  }

  function CancellationDecision(definition: Definition, state: RunState): Option<Decision> {
    match state.cancelRequested
    case None => None
    case Some(who) =>
      var owed := PendingCompensations(definition, state);
      if owed != [] then Some(Compensate(owed[0]))
      else if state.outstanding == [] then Some(CancelRun(who))
      else None
  }

  function WaitDecision(state: RunState, now: Time): Decision {
    match state.waitingOn
    case Some(Timer(until)) => if until <= now then ResumeWait(Timer(until)) else Idle
    case _ => Idle
  }

  /** The decision for a run that is under way, with no claim, doubt or cancellation to answer. */
  function DecideRunning(definition: Definition, state: RunState, now: Time): Decision {
    match TimedOutNode(definition, state, now)
    case Some(node) => TimeOutNode(node)
    case None =>
      if RunDeadlinePassed(definition, state, now) then FailRun(BudgetSpent("wall time"))
      else
        match LoopDecision(definition.graph.regions, state)
        case Some(decision) => decision
        case None =>
          match FailureDecision(definition, state)
          case Some(decision) => decision
          case None =>
            match IterationDecision(definition, definition.graph.regions, state)
            case Some(decision) => decision
            case None => WorkDecision(definition, state)
  }

  function WorkDecision(definition: Definition, state: RunState): Decision {
    match NextReadyNode(definition, definition.graph.nodes, state)
    case Some(node) =>
      if node.kind.EffectNode? && node.effects != [] && (node.id, node.effects[0].id) !in state.completed
      then PerformEffect(node.id, node.effects[0].id, 0)
      else StartNode(node.id)
    case None =>
      if state.running != map[] then Idle
      else if forall node :: node in definition.graph.nodes ==> state.HasFinished(node.id) then CompleteRun
      else Idle
  }

  /** An open claim is retried where its effect allows repetition, and halts the run where it does not. */
  function OutstandingDecision(definition: Definition, state: RunState): Option<Decision> {
    if state.outstanding == [] then None
    else
      var claim := state.outstanding[0];
      match definition.graph.EffectOf(claim.node, claim.effect)
      case None => None
      case Some(declared) =>
        match declared.idempotency
        case Idempotent =>
          Some(RetryClaimedEffect(claim.node, claim.effect, SaturatingAdd(claim.attempt, 1, U32_MAX)))
        case Keyed(_) => Some(RetryClaimedEffect(claim.node, claim.effect, claim.attempt))
        case NonIdempotent => Some(HaltUncertainEffect(claim.node, claim.effect))
  }

  function OrElse<T>(first: Option<T>, second: Option<T>): Option<T> {
    if first.Some? then first else second
  }

  function StopReasonFor(spec: LoopSpec, state: RunState, progress: LoopProgress): Option<StopReason> {
    OrElse(Loops.BudgetReached(spec.budget, state.spent),
           OrElse(Loops.InvariantBroken(progress),
                  if spec.progress.Some? then Loops.Stuck(spec.progress.value, progress) else None))
  }

  /** Ends the run over a loop that was stopped, or stops a loop that is out of bounds; the first in region order. */
  function LoopDecision(regions: seq<Region>, state: RunState): (decision: Option<Decision>)
    ensures decision.Some? ==>
      || decision.value.FailRun?
      || (&& decision.value.StopLoop? && !decision.value.reason.ConditionFalse?
          && state.LoopOf(decision.value.region).stopped.None?)
    ensures decision.None? ==> forall region :: region in regions && region.kind.Loop? ==>
      state.LoopOf(region.id).stopped.None? || state.LoopOf(region.id).stopped.value.ConditionFalse?
  {
    if regions == [] then None
    else
      var region := regions[0];
      var rest := LoopDecision(regions[1..], state);
      match region.kind
      case Plain => rest
      case Loop(spec) =>
        var progress := state.LoopOf(region.id);
        match progress.stopped
        case Some(reason) =>
          if reason.ConditionFalse? then rest else Some(FailRun(LoopFailure(region.id, reason)))
        case None =>
          match StopReasonFor(spec, state, progress)
          case Some(reason) => Some(StopLoop(region.id, reason))
          case None => rest
  }

  function UnresolvedNodes(state: RunState): set<Identifier> {
    set node | node in state.failures && state.Unresolved(node)
  }

  /** What the declared routes make of the first unresolved failure, in key order. */
  function FailureDecision(definition: Definition, state: RunState): Option<Decision> {
    if UnresolvedNodes(state) == {} then None
    else
      var node := First(UnresolvedNodes(state));
      var reported := state.FailuresOf(node);
      var failure := reported[|reported| - 1];
      var stop := FailRun(NodeFailure(node, failure.kind, failure.detail));
      match definition.graph.RegionOf(node)
      case None => Some(stop)
      case Some(region) =>
        match region.kind
        case Plain => Some(stop)
        case Loop(spec) =>
          if state.LoopOf(region.id).stopped.Some? then Some(stop)
          else
            match Loops.RepairFor(spec, state, node, failure.kind)
            case None => Some(stop)
            case Some(RunAgain(target)) => Some(StartNode(target))
            case Some(HandTo(target)) => Some(StartNode(target))
            case Some(EscalateTo(to)) => Some(Suspend(HumanGate(node, to)))
            case Some(Rejected) => Some(stop)
            case Some(Exhausted(kind)) => Some(StopLoop(region.id, RepairExhausted(kind)))
  }

  /** The first loop, in region order, that is due to open or close an iteration or to end on its condition. */
  function IterationDecision(definition: Definition, regions: seq<Region>, state: RunState): Option<Decision> {
    if regions == [] then None
    else
      var own := if regions[0].kind.Loop? then OneLoopDecision(definition, state, regions[0]) else None;
      if own.Some? then own else IterationDecision(definition, regions[1..], state)
  }

  function OneLoopDecision(definition: Definition, state: RunState, region: Region): Option<Decision>
    requires region.kind.Loop?
  {
    var spec := region.kind.spec;
    var progress := state.LoopOf(region.id);
    if progress.stopped.Some? then None
    else if progress.started > progress.finished then
      if state.HasFinished(region.exit) then Some(FinishIteration(region.id, progress.finished)) else None
    else if progress.finished == 0 then
      if RegionReachable(definition, state, region) then Some(StartIteration(region.id, 0)) else None
    else
      match state.ControlOf(spec.continuation.evaluatedBy, spec.continuation.port)
      case Some(Bool(keepGoing)) =>
        if !keepGoing then Some(StopLoop(region.id, ConditionFalse))
        else
          (match Loops.IterationsReached(spec.budget, progress)
           case Some(reason) => Some(StopLoop(region.id, reason))
           case None => Some(StartIteration(region.id, progress.finished)))
      case _ => Some(FailRun(ControlMissing(region.id, spec.continuation.evaluatedBy, spec.continuation.port)))
  }

  predicate RegionReachable(definition: Definition, state: RunState, region: Region) {
    forall node :: node in definition.graph.PredecessorsOf(region.entry) && node !in region.nodes ==>
      state.HasFinished(node)
  }

  /** The first node in canonical order that is idle and whose predecessors have all settled. */
  function NextReadyNode(definition: Definition, nodes: seq<Node>, state: RunState): (ready: Option<Node>)
    ensures ready.Some? ==> ready.value in nodes && IsReady(definition, state, ready.value.id)
    ensures ready.None? ==> forall node :: node in nodes ==> !IsReady(definition, state, node.id)
  {
    if nodes == [] then None
    else if IsReady(definition, state, nodes[0].id) then Some(nodes[0])
    else NextReadyNode(definition, nodes[1..], state)
  }

  predicate IsReady(definition: Definition, state: RunState, node: Identifier) {
    && !state.HasFinished(node)
    && node !in state.running
    && IterationOpenFor(definition, state, node)
    && forall predecessor :: predecessor in definition.graph.PredecessorsOf(node) ==>
         Settled(definition, state, node, predecessor)
  }

  /** Inside its loop a predecessor counts at once; outside it, only when the loop has stopped. */
  predicate Settled(definition: Definition, state: RunState, dependent: Identifier, predecessor: Identifier) {
    && state.HasFinished(predecessor)
    && match definition.graph.RegionOf(predecessor)
       case None => true
       case Some(region) =>
         region.kind.Plain? || dependent in region.nodes || state.LoopOf(region.id).stopped.Some?
  }

  predicate IterationOpenFor(definition: Definition, state: RunState, node: Identifier) {
    match definition.graph.RegionOf(node)
    case None => true
    case Some(region) =>
      var progress := state.LoopOf(region.id);
      region.kind.Plain? || (progress.stopped.None? && progress.started > progress.finished)
  }
}
