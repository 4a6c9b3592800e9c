/**
 What justifies a repair, an escalation, a stopped loop or a failed run, said on the definition and the
 state alone. The decision function is held to these (DecisionSoundness), and so is every log
 (RunOutcomes).
 */
module Causes {
  import opened Wrappers
  import opened Identifiers
  import opened Definition
  import opened RunEvents
  import opened RunStates
  import opened Stopping
  import Loops

  /** The node sits in a loop that has not stopped. */
  predicate InRunningLoop(definition: Definition, state: RunState, node: Identifier, region: Region) {
    && definition.graph.RegionOf(node) == Some(region) && region.kind.Loop?
    && state.LoopOf(region.id).stopped.None?
  }

  /** The failure a node reported last, which nobody has answered. */
  predicate Awaits(state: RunState, node: Identifier, failure: ReportedFailure) {
    && node !in state.running && node !in state.finished
    && state.FailuresOf(node) != [] && state.FailuresOf(node)[|state.FailuresOf(node)| - 1] == failure
  }

  /** How often the node reported that kind, as far as the counter reaches. */
  function Times(state: RunState, node: Identifier, kind: FailureKind): nat {
    var exact := multiset(Loops.Kinds(state.FailuresOf(node)))[kind];
    if exact > U32_MAX then U32_MAX else exact
  }

  /** The first route a running loop declares for a failure of its node. */
  ghost predicate Routed(definition: Definition, state: RunState, node: Identifier, failure: ReportedFailure, route: Route) {
    exists region :: (
      && InRunningLoop(definition, state, node, region)
      && Loops.FirstRoute(region.kind.spec.repairs, failure.kind, route))
  }

  /** A failure waiting for an answer is routed to this node, with attempts left. */
  ghost predicate RouteNames(definition: Definition, state: RunState, target: Identifier) {
    exists node, failure, route :: (
      && Awaits(state, node, failure) && Routed(definition, state, node, failure, route)
      && match route
         case Repair(named) => named == target
         case Retry(named, attempts) => named == target && Times(state, node, failure.kind) <= attempts
         case _ => false)
  }

  ghost predicate RouteEscalates(definition: Definition, state: RunState, wait: Wait) {
    exists node, failure, to :: (
      && Awaits(state, node, failure) && Routed(definition, state, node, failure, Escalate(to))
      && wait == HumanGate(node, to))
  }

  /** Nobody but the run can answer the failure: no running loop, no route, or one that rejects. */
  ghost predicate Unanswerable(definition: Definition, state: RunState, node: Identifier, failure: ReportedFailure) {
    || (forall region :: !InRunningLoop(definition, state, node, region))
    || (forall route :: !Routed(definition, state, node, failure, route))
    || Routed(definition, state, node, failure, Reject)
  }

  /** The measure moved against its declared direction. */
  predicate MovedBack(direction: Direction, progress: LoopProgress) {
    && progress.lastProgress.Some? && progress.previousProgress.Some?
    && match direction
       case StrictlyDecreasing => progress.lastProgress.value > progress.previousProgress.value
       case StrictlyIncreasing => progress.lastProgress.value < progress.previousProgress.value
  }

  predicate Reported(state: RunState, continuation: Continuation, keepGoing: bool) {
    state.ControlOf(continuation.evaluatedBy, continuation.port) == Some(Bool(keepGoing))
  }

  /** Why a declared loop may be stopped. */
  ghost predicate StopsOn(definition: Definition, state: RunState, declared: Region, reason: StopReason)
    requires declared.kind.Loop?
  {
    var spec, progress := declared.kind.spec, state.LoopOf(declared.id);
    match reason
    case ConditionFalse => Reported(state, spec.continuation, false)
    case BudgetExhausted(Iterations) => progress.started >= spec.budget.maxIterations
    case BudgetExhausted(WallTime) => state.spent.wallMs >= spec.budget.wallMs
    case BudgetExhausted(Tokens) => spec.budget.tokens > 0 && state.spent.tokens >= spec.budget.tokens
    case BudgetExhausted(Cost) =>
      spec.budget.costMicroUnits > 0 && state.spent.costMicroUnits >= spec.budget.costMicroUnits
    case BudgetExhausted(Effects) => spec.budget.effectCount > 0 && state.spent.effects >= spec.budget.effectCount
    case InvariantFailed(id) => progress.failedInvariant == Some(id)
    case NonProgress(measure) =>
      && spec.progress.Some? && spec.progress.value.id == measure
      && (progress.stalled >= 2 || MovedBack(spec.progress.value.direction, progress))
    case RepairExhausted(kind) =>
      exists node, failure, target, attempts :: (
        && Awaits(state, node, failure) && failure.kind == kind && InRunningLoop(definition, state, node, declared)
        && Loops.FirstRoute(spec.repairs, kind, Retry(target, attempts)) && Times(state, node, kind) > attempts)
  }

  ghost predicate StopsFor(definition: Definition, state: RunState, region: Identifier, reason: StopReason) {
    exists declared :: (
      declared in definition.graph.regions && declared.id == region && declared.kind.Loop?
      && StopsOn(definition, state, declared, reason))
  }

  /** Why a run may fail. */
  ghost predicate FailsFor(definition: Definition, state: RunState, reason: RunFailure) {
    match reason
    case NodeFailure(node, kind, detail) =>
      && Awaits(state, node, ReportedFailure(kind, detail))
      && Unanswerable(definition, state, node, ReportedFailure(kind, detail))
    case EffectDoubt(node, effect) =>
      var owed := PendingCompensations(definition, state);
      || (state.uncertain != [] && state.uncertain[0] == (node, effect))
      || (owed != [] && owed[0].node == node && owed[0].effect == effect)
    case BudgetSpent(resource) => resource == "wall time" && state.startedAt.Some? && definition.wallMs > 0
    case ControlMissing(region, node, port) =>
      exists declared :: (
        && declared in definition.graph.regions && declared.id == region && declared.kind.Loop?
        && declared.kind.spec.continuation == Continuation(node, port)
        && !Reported(state, Continuation(node, port), true) && !Reported(state, Continuation(node, port), false))
    case LoopFailure(region, why) => state.LoopOf(region).stopped == Some(why) && !why.ConditionFalse?
  }

  // ---- Readiness, on the edges. ----

  /** A predecessor has finished, and if it sits in a loop the node does not, that loop has stopped. */
  predicate DoneFor(definition: Definition, state: RunState, node: Identifier, predecessor: Identifier) {
    && state.HasFinished(predecessor)
    && var region := definition.graph.RegionOf(predecessor);
       region.Some? && region.value.kind.Loop? && node !in region.value.nodes ==>
         state.LoopOf(region.value.id).stopped.Some?
  }

  /** A node of a loop runs only inside an iteration of it. */
  predicate InsideOpenIteration(definition: Definition, state: RunState, node: Identifier) {
    var region := definition.graph.RegionOf(node);
    region.Some? && region.value.kind.Loop? ==>
      && state.LoopOf(region.value.id).stopped.None?
      && state.LoopOf(region.value.id).started > state.LoopOf(region.value.id).finished
  }

  /** The node is idle, inside an open iteration of its loop, and every other end of an edge into it is done. */
  predicate Startable(definition: Definition, state: RunState, node: Identifier) {
    && !state.HasFinished(node) && node !in state.running
    && InsideOpenIteration(definition, state, node)
    && forall edge, source ::
         edge in definition.graph.edges && node in edge.targets && source in edge.sources && source != node ==>
           DoneFor(definition, state, node, source)
  }
}
