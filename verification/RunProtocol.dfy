/**
 The law a run's log obeys: which events may follow which states, and the invariant that every
 permitted event keeps. It is stated on states alone; GraphWorkers shows that a fleet of workers
 only ever appends permitted events, and names the two exceptions.
 */
module RunProtocol {
  import opened Wrappers
  import opened Identifiers
  import opened Definition
  import opened RunEvents
  import opened RunStates
  import opened RunEffects
  import RunResults
  import opened Stopping
  import opened DecisionCore
  import opened Causes

  /** One run of one definition. */
  datatype Config = Config(run: string, definition: Definition)

  function EffectOf(config: Config, node: Identifier, effect: Identifier): Option<Effect> {
    config.definition.graph.EffectOf(node, effect)
  }

  predicate Declares(config: Config, node: Identifier, effect: Identifier) {
    EffectOf(config, node, effect).Some?
  }

  predicate MustNotRepeat(config: Config, node: Identifier, effect: Identifier) {
    Declares(config, node, effect) && EffectOf(config, node, effect).value.idempotency.NonIdempotent?
  }

  predicate HasKey(config: Config, node: Identifier, effect: Identifier) {
    Declares(config, node, effect) && EffectOf(config, node, effect).value.idempotency.Keyed?
  }

  /** The one key a run ever presents for an effect; `None` for an effect without a key. */
  function TheKey(config: Config, node: Identifier, effect: Identifier): Option<string> {
    if !HasKey(config, node, effect) then None
    else
      match ParseKeySource(EffectOf(config, node, effect).value.idempotency.keySource)
      case None => None
      case Some(source) => Some(KeyFor(source, config.run, node, effect, 0))
  }

  /** A claim names a declared effect and carries that effect's key. */
  ghost predicate AttemptOk(config: Config, attempt: EffectAttempt) {
    && Declares(config, attempt.node, attempt.effect)
    && attempt.key == TheKey(config, attempt.node, attempt.effect)
    && (HasKey(config, attempt.node, attempt.effect) ==> attempt.attempt == 0 && attempt.key.Some?)
  }

  function AsAttempt(claim: OutstandingEffect): EffectAttempt {
    EffectAttempt(claim.node, claim.effect, claim.attempt, claim.key)
  }

  /** Claims in doubt all concern one effect, whose node is open and which is not yet resolved. */
  ghost predicate ClaimsOk(config: Config, state: RunState) {
    state.outstanding != [] ==>
      var first := state.outstanding[0];
      && (forall claim :: claim in state.outstanding ==>
            AttemptOk(config, AsAttempt(claim)) && claim.node == first.node && claim.effect == first.effect)
      && first.node in state.running
      && (first.node, first.effect) !in state.completed
      && state.uncertain == []
      && state.status.Running?
      && (MustNotRepeat(config, first.node, first.effect) ==> |state.outstanding| == 1)
  }

  /** Every effect is finalized at most once, and only finalized effects are compensated. */
  ghost predicate HistoryOk(state: RunState) {
    && (forall done :: done in state.finalizedOrder <==> done in state.completed)
    && (forall i, j :: 0 <= i < j < |state.finalizedOrder| ==> state.finalizedOrder[i] != state.finalizedOrder[j])
    && state.compensated <= state.completed
  }

  function MaxStarts(spec: LoopSpec): nat {
    if spec.budget.maxIterations == 0 then 1 else spec.budget.maxIterations
  }

  /** One iteration open at a time, and never more of them than the declared count. */
  ghost predicate LoopsOk(config: Config, state: RunState) {
    && (forall region :: region in state.loops ==>
          state.loops[region].finished <= state.loops[region].started <= state.loops[region].finished + 1 <= U32_MAX + 1)
    && (Admitted(config.definition) ==>
          forall region :: region in config.definition.graph.regions && region.kind.Loop? ==>
            state.LoopOf(region.id).started <= MaxStarts(region.kind.spec))
  }

  ghost predicate AllFinished(config: Config, state: RunState) {
    forall node :: node in config.definition.graph.nodes ==> state.HasFinished(node.id)
  }

  ghost predicate LoopsDone(config: Config, state: RunState) {
    forall region :: region in config.definition.graph.regions && region.kind.Loop? ==>
      state.LoopOf(region.id).stopped == Some(ConditionFalse)
  }

  /** What has to be true of a run that reports completion. */
  ghost predicate MayComplete(config: Config, state: RunState) {
    && AllFinished(config, state)
    && state.running == map[]
    && state.outstanding == []
    && state.uncertain == []
    && UnresolvedNodes(state) == {}
    && state.cancelRequested.None?
    && (Admitted(config.definition) ==> LoopsDone(config, state))
  }

  /** A failing run has undone what it published, or failed on the undoing itself. */
  ghost predicate MayFail(config: Config, state: RunState, reason: RunFailure) {
    var owed := PendingCompensations(config.definition, state);
    && state.outstanding == []
    && (owed == [] || reason == EffectDoubt(owed[0].node, owed[0].effect))
  }

  ghost predicate EndOk(config: Config, state: RunState) {
    && (state.status.Cancel? ==>
          state.outstanding == [] && PendingCompensations(config.definition, state) == [])
    && (state.status.Failure? ==> state.failure.Some? && MayFail(config, state, state.failure.value))
    && (state.status.Complete? ==> MayComplete(config, state))
  }

  /** The invariant of every state a run's log folds to. */
  ghost predicate Good(config: Config, state: RunState) {
    && ClaimsOk(config, state)
    && HistoryOk(state)
    && LoopsOk(config, state)
    && (!state.status.IsTerminal() ==> (state.status.Waiting? <==> state.waitingOn.Some?))
    && EndOk(config, state)
  }

  /** When claiming an attempt is permitted: nothing in doubt, or a repeatable effect's own doubt. */
  ghost predicate ClaimOk(config: Config, state: RunState, attempt: EffectAttempt) {
    && AttemptOk(config, attempt)
    && state.status.Running?
    && state.uncertain == []
    && (attempt.node, attempt.effect) !in state.completed
    && (state.outstanding != [] ==>
          && state.outstanding[0].node == attempt.node
          && state.outstanding[0].effect == attempt.effect
          && !MustNotRepeat(config, attempt.node, attempt.effect))
  }

  ghost predicate InDoubt(state: RunState, node: Identifier, effect: Identifier) {
    state.outstanding != [] && state.outstanding[0].node == node && state.outstanding[0].effect == effect
  }

  /** A node starts once its predecessors have settled, or because a failure's route names it. */
  ghost predicate MayStartNode(config: Config, state: RunState, node: Identifier) {
    IsReady(config.definition, state, node) || RouteNames(config.definition, state, node)
  }

  /** The evaluator of the loop's condition last reported this. */
  ghost predicate ContinuationIs(config: Config, state: RunState, region: Identifier, keepGoing: bool) {
    exists declared :: (
      && declared in config.definition.graph.regions && declared.id == region && declared.kind.Loop?
      && state.ControlOf(declared.kind.spec.continuation.evaluatedBy, declared.kind.spec.continuation.port) ==
           Some(Bool(keepGoing)))
  }

  ghost predicate MayStartIteration(config: Config, state: RunState, region: Identifier) {
    && state.outstanding == []
    && state.LoopOf(region).stopped.None?
    && (state.LoopOf(region).finished > 0 ==> ContinuationIs(config, state, region, true))
    && state.LoopOf(region).started <= state.LoopOf(region).finished
    && (Admitted(config.definition) ==>
          forall declared :: declared in config.definition.graph.regions && declared.kind.Loop? && declared.id == region ==>
            state.LoopOf(region).started < MaxStarts(declared.kind.spec))
  }

  /** A new iteration resets exactly the nodes its region declares. */
  ghost predicate ResetsItsRegion(config: Config, region: Identifier, members: set<Identifier>) {
    match FindRegion(config.definition.graph.regions, region)
    case None => members == {}
    case Some(declared) => members == declared.nodes
  }

  /** A closing record says only what the log says: outputs at both ends, and every declared reading. */
  ghost predicate ReadFromTheLog(definition: Definition, state: RunState, region: Identifier, record: IterationRecord) {
    match FindRegion(definition.graph.regions, region)
    case None => false
    case Some(declared) =>
      && declared.kind.Loop?
      && record.stateIn == state.OutputsOf(declared.entry)
      && record.stateOut == state.OutputsOf(declared.exit)
      && OutcomesRead(state, declared.kind.spec.invariants, record.invariants)
      && match declared.kind.spec.progress
         case None => record.progress.None?
         case Some(measure) =>
           record.progress.Some? && state.ControlOf(measure.measuredBy, measure.port) == Some(Integer(record.progress.value))
  }

  /** One outcome for each declared invariant, in order, holding what its evaluator reported. */
  ghost predicate OutcomesRead(state: RunState, declared: seq<LoopInvariant>, outcomes: seq<InvariantOutcome>) {
    && |outcomes| == |declared|
    && forall i :: 0 <= i < |declared| ==>
         && outcomes[i].invariantId == declared[i].id && outcomes[i].timing == declared[i].timing
         && state.ControlOf(declared[i].evaluator, declared[i].port) == Some(Bool(outcomes[i].held))
  }

  /** Which event a run in this state may record next. */
  ghost predicate Permitted(config: Config, state: RunState, event: RunEvent) {
    && !state.status.IsTerminal()
    && match event
       case Admission(_, _) => false
       case Started(_) => state.status.Queued?
       case NodeStarted(node) =>
         state.status.Running? && node !in state.running && state.outstanding == [] && MayStartNode(config, state, node)
       case NodeFinished(node, _, _) => node in state.running && state.outstanding == []
       case NodeFailed(node, _, _) => node in state.running && state.outstanding == []
       case EffectClaimed(node, effect, attempt, key) =>
         node in state.running && ClaimOk(config, state, EffectAttempt(node, effect, attempt, key))
       case EffectFinalized(node, effect, _, _) => InDoubt(state, node, effect)
       case EffectAbandoned(node, effect, _, _) => InDoubt(state, node, effect)
       case EffectUncertain(node, effect, _) => InDoubt(state, node, effect)
       case IterationStarted(region, index, members) =>
         && MayStartIteration(config, state, region) && index == state.LoopOf(region).finished
         && ResetsItsRegion(config, region, members)
       case IterationFinished(region, record) =>
         && state.LoopOf(region).stopped.None? && state.LoopOf(region).started > state.LoopOf(region).finished
         && record.index == state.LoopOf(region).finished
         && ReadFromTheLog(config.definition, state, region, record)
       case LoopStopped(region, reason) =>
         && state.LoopOf(region).stopped.None?
         && StopsFor(config.definition, state, region, reason)
       case Suspended(wait) =>
         state.status.Running? && state.outstanding == [] && RouteEscalates(config.definition, state, wait)
       case Resumed(wait, _) => state.waitingOn == Some(wait)
       case CancellationRequested(_) => true
       case Compensated(node, effect, route, _) =>
         var owed := PendingCompensations(config.definition, state);
         owed != [] && owed[0] == Compensation(node, effect, route)
       case Cancelled(who) =>
         && state.cancelRequested == Some(who)
         && state.outstanding == [] && PendingCompensations(config.definition, state) == []
       case Failed(reason) => MayFail(config, state, reason) && FailsFor(config.definition, state, reason)
       case Completed(results) => MayComplete(config, state) && results == RunResults.Flattened(state.finished)
  }

  // ---- A permitted event folds, and keeps the invariant. ----

  lemma {:induction false} OwedDependsOnHistory(
    definition: Definition, before: RunState, after: RunState, order: seq<EffectRef>)
    requires before.compensated == after.compensated
    ensures OwedFor(definition, before, order) == OwedFor(definition, after, order)
  {
    if order != [] {
      OwedDependsOnHistory(definition, before, after, order[..|order| - 1]);
    }
  }

  lemma {:induction false} OwedWasFinalized(definition: Definition, state: RunState, order: seq<EffectRef>)
    ensures forall owed :: owed in OwedFor(definition, state, order) ==>
      (owed.node, owed.effect) in order && (owed.node, owed.effect) !in state.compensated
  {
    if order != [] {
      OwedWasFinalized(definition, state, order[..|order| - 1]);
      assert order == order[..|order| - 1] + [order[|order| - 1]];
    }
  }

  /** Loop bounds depend only on the recorded loop progress. */
  lemma LoopsFrame(config: Config, before: RunState, after: RunState)
    requires LoopsOk(config, before) && after.loops == before.loops
    ensures LoopsOk(config, after)
  {
    hide Admitted;
    assert forall region :: after.LoopOf(region) == before.LoopOf(region);
  }

  lemma ClaimKeepsGood(config: Config, state: RunState, event: RunEvent, at: Time)
    requires Good(config, state) && Permitted(config, state, event) && event.EffectClaimed?
    ensures ApplyEvent(state, event, at).Ok? && Good(config, ApplyEvent(state, event, at).value)
  {
    hide Admitted, LoopsOk, RouteNames, RouteEscalates, FailsFor, StopsFor, IsReady, ReadFromTheLog, ResetsItsRegion, MayStartIteration, MayComplete, MayFail;
    LoopsFrame(config, state, ApplyEvent(state, event, at).value);
    var after := ApplyEvent(state, event, at).value;
    assert forall claim :: claim in after.outstanding ==>
      claim in state.outstanding || AsAttempt(claim) == EffectAttempt(event.node, event.effect, event.attempt, event.key);
    if state.outstanding != [] {
      assert after.outstanding[0] == state.outstanding[0];
    }
  }

  /** Resolving the effect in doubt leaves nothing in doubt. */
  lemma ResolutionEmptiesDoubt(config: Config, state: RunState, node: Identifier, effect: Identifier)
    requires ClaimsOk(config, state) && InDoubt(state, node, effect)
    ensures Without(state.outstanding, node, effect) == []
  {
  }

  lemma FinalizationKeepsGood(config: Config, state: RunState, event: RunEvent, at: Time)
    requires Good(config, state) && Permitted(config, state, event) && event.EffectFinalized?
    ensures ApplyEvent(state, event, at).Ok? && Good(config, ApplyEvent(state, event, at).value)
  {
    hide Admitted, LoopsOk, RouteNames, RouteEscalates, FailsFor, StopsFor, IsReady, ReadFromTheLog, ResetsItsRegion, MayStartIteration, MayComplete, MayFail;
    LoopsFrame(config, state, ApplyEvent(state, event, at).value);
    ResolutionEmptiesDoubt(config, state, event.node, event.effect);
    var done := (event.node, event.effect);
    assert forall each :: each in state.finalizedOrder + [done] <==> each in state.finalizedOrder || each == done;
  }

  lemma GivingUpKeepsGood(config: Config, state: RunState, event: RunEvent, at: Time)
    requires Good(config, state) && Permitted(config, state, event)
    requires event.EffectAbandoned? || event.EffectUncertain?
    ensures ApplyEvent(state, event, at).Ok? && Good(config, ApplyEvent(state, event, at).value)
  {
    hide Admitted, LoopsOk, RouteNames, RouteEscalates, FailsFor, StopsFor, IsReady, ReadFromTheLog, ResetsItsRegion, MayStartIteration, MayComplete, MayFail;
    LoopsFrame(config, state, ApplyEvent(state, event, at).value);
    ResolutionEmptiesDoubt(config, state, event.node, event.effect);
  }

  /** Changing one loop's progress within its bounds keeps every loop within bounds. */
  lemma OneLoopKeepsLoopsOk(
    config: Config, state: RunState, after: RunState, region: Identifier, progress: LoopProgress)
    requires LoopsOk(config, state)
    requires after.loops == state.loops[region := progress]
    requires progress.finished <= progress.started <= progress.finished + 1 <= U32_MAX + 1
    requires Admitted(config.definition) ==>
      forall declared :: declared in config.definition.graph.regions && declared.kind.Loop? && declared.id == region ==>
        progress.started <= MaxStarts(declared.kind.spec)
    ensures LoopsOk(config, after)
  {
    hide Admitted;
    forall declared | declared in config.definition.graph.regions && declared.id != region
      ensures after.LoopOf(declared.id) == state.LoopOf(declared.id)
    {
    }
  }

  lemma IterationStartKeepsGood(config: Config, state: RunState, event: RunEvent, at: Time)
    requires Good(config, state) && Permitted(config, state, event) && event.IterationStarted?
    ensures ApplyEvent(state, event, at).Ok? && Good(config, ApplyEvent(state, event, at).value)
  {
    hide Admitted;
    var after := ApplyEvent(state, event, at).value;
    OneLoopKeepsLoopsOk(config, state, after, event.region, after.loops[event.region]);
  }

  lemma IterationEndKeepsGood(config: Config, state: RunState, event: RunEvent, at: Time)
    requires Good(config, state) && Permitted(config, state, event) && event.IterationFinished?
    ensures ApplyEvent(state, event, at).Ok? && Good(config, ApplyEvent(state, event, at).value)
  {
    hide Admitted;
    var after := ApplyEvent(state, event, at).value;
    OneLoopKeepsLoopsOk(config, state, after, event.region, after.loops[event.region]);
  }

  /** The condition for ending in a way reads nothing that recording the end changes. */
  lemma EndFrame(config: Config, state: RunState, after: RunState)
    requires after.finished == state.finished && after.running == state.running && after.failures == state.failures
    requires after.outstanding == state.outstanding && after.uncertain == state.uncertain
    requires after.cancelRequested == state.cancelRequested && after.loops == state.loops
    requires after.finalizedOrder == state.finalizedOrder && after.compensated == state.compensated
    ensures MayComplete(config, state) ==> MayComplete(config, after) && state.outstanding == []
    ensures PendingCompensations(config.definition, after) == PendingCompensations(config.definition, state)
    ensures forall reason :: MayFail(config, state, reason) ==> MayFail(config, after, reason) && state.outstanding == []
  {
    hide Admitted;
    OwedDependsOnHistory(config.definition, state, after, state.finalizedOrder);
    assert UnresolvedNodes(after) == UnresolvedNodes(state);
    assert forall region :: after.LoopOf(region) == state.LoopOf(region);
  }

  lemma EndKeepsGood(config: Config, state: RunState, event: RunEvent, at: Time)
    requires Good(config, state) && Permitted(config, state, event) && EndsRun(event)
    ensures ApplyEvent(state, event, at).Ok? && Good(config, ApplyEvent(state, event, at).value)
  {
    hide Admitted, LoopsOk, MayComplete, MayFail, PendingCompensations, UnresolvedNodes, FailsFor;
    var after := ApplyEvent(state, event, at).value;
    LoopsFrame(config, state, after);
    EndFrame(config, state, after);
  }

  lemma NodeKeepsGood(config: Config, state: RunState, event: RunEvent, at: Time)
    requires Good(config, state) && Permitted(config, state, event)
    requires event.Started? || event.NodeStarted? || event.NodeFinished? || event.NodeFailed?
    ensures ApplyEvent(state, event, at).Ok? && Good(config, ApplyEvent(state, event, at).value)
  {
    hide Admitted, LoopsOk, RouteNames, RouteEscalates, FailsFor, StopsFor, IsReady, ReadFromTheLog, ResetsItsRegion, MayStartIteration, MayComplete, MayFail;
    LoopsFrame(config, state, ApplyEvent(state, event, at).value);
  }

  lemma CompensationKeepsGood(config: Config, state: RunState, event: RunEvent, at: Time)
    requires Good(config, state) && Permitted(config, state, event) && event.Compensated?
    ensures ApplyEvent(state, event, at).Ok? && Good(config, ApplyEvent(state, event, at).value)
  {
    hide Admitted, LoopsOk, RouteNames, RouteEscalates, FailsFor, StopsFor, IsReady, ReadFromTheLog, ResetsItsRegion, MayStartIteration, MayComplete, MayFail;
    LoopsFrame(config, state, ApplyEvent(state, event, at).value);
    OwedWasFinalized(config.definition, state, state.finalizedOrder);
    assert PendingCompensations(config.definition, state)[0] in PendingCompensations(config.definition, state);
  }

  lemma LoopStopKeepsGood(config: Config, state: RunState, event: RunEvent, at: Time)
    requires Good(config, state) && Permitted(config, state, event) && event.LoopStopped?
    ensures ApplyEvent(state, event, at).Ok? && Good(config, ApplyEvent(state, event, at).value)
  {
    hide Admitted, LoopsOk;
    var after := ApplyEvent(state, event, at).value;
    LoopOfIsBounded(config, state, event.region);
    OneLoopKeepsLoopsOk(config, state, after, event.region, after.loops[event.region]);
  }

  lemma LoopOfIsBounded(config: Config, state: RunState, region: Identifier)
    requires LoopsOk(config, state)
    ensures state.LoopOf(region).finished <= state.LoopOf(region).started
    ensures state.LoopOf(region).started <= state.LoopOf(region).finished + 1 <= U32_MAX + 1
    ensures Admitted(config.definition) ==>
      forall declared :: declared in config.definition.graph.regions && declared.kind.Loop? && declared.id == region ==>
        state.LoopOf(region).started <= MaxStarts(declared.kind.spec)
  {
    hide Admitted;
  }

  lemma WaitKeepsGood(config: Config, state: RunState, event: RunEvent, at: Time)
    requires Good(config, state) && Permitted(config, state, event)
    requires event.Suspended? || event.Resumed? || event.CancellationRequested?
    ensures ApplyEvent(state, event, at).Ok? && Good(config, ApplyEvent(state, event, at).value)
  {
    hide Admitted, LoopsOk, RouteNames, RouteEscalates, FailsFor, StopsFor, IsReady, ReadFromTheLog, ResetsItsRegion, MayStartIteration, MayComplete, MayFail;
    LoopsFrame(config, state, ApplyEvent(state, event, at).value);
  }

  /** The log law on events: each kind of event is accepted and keeps the invariant. */
  lemma EventKeepsGood(config: Config, state: RunState, event: RunEvent, at: Time)
    requires Good(config, state) && Permitted(config, state, event)
    ensures ApplyEvent(state, event, at).Ok? && Good(config, ApplyEvent(state, event, at).value)
  {
    hide Good;
    if event.EffectClaimed? {
      ClaimKeepsGood(config, state, event, at);
    } else if event.EffectFinalized? {
      FinalizationKeepsGood(config, state, event, at);
    } else if event.EffectAbandoned? || event.EffectUncertain? {
      GivingUpKeepsGood(config, state, event, at);
    } else if event.IterationStarted? {
      IterationStartKeepsGood(config, state, event, at);
    } else if event.IterationFinished? {
      IterationEndKeepsGood(config, state, event, at);
    } else if EndsRun(event) {
      EndKeepsGood(config, state, event, at);
    } else if event.Compensated? {
      CompensationKeepsGood(config, state, event, at);
    } else if event.Started? || event.NodeStarted? || event.NodeFinished? || event.NodeFailed? {
      NodeKeepsGood(config, state, event, at);
    } else if event.LoopStopped? {
      LoopStopKeepsGood(config, state, event, at);
    } else {
      WaitKeepsGood(config, state, event, at);
    }
  }

  /** The invariant reads neither a log position nor an epoch. */
  lemma PlaceKeepsGood(config: Config, state: RunState, recorded: RecordedEvent)
    requires Good(config, state)
    ensures Good(config, Placed(state, recorded))
  {
    hide Admitted, LoopsOk, MayComplete, MayFail, PendingCompensations, UnresolvedNodes;
    var placed := Placed(state, recorded);
    LoopsFrame(config, state, placed);
    EndFrame(config, state, placed);
  }

  /** The log law: a permitted event is accepted by the fold and leads to a good state again. */
  lemma PermittedKeepsGood(config: Config, state: RunState, recorded: RecordedEvent)
    requires Good(config, state) && Permitted(config, state, recorded.event)
    requires recorded.position == state.nextPosition
    ensures Apply(state, recorded).Ok?
    ensures Good(config, Apply(state, recorded).value)
  {
    hide Good, ApplyEvent;
    EventKeepsGood(config, state, recorded.event, recorded.at);
    PlaceKeepsGood(config, ApplyEvent(state, recorded.event, recorded.at).value, recorded);
  }
}
