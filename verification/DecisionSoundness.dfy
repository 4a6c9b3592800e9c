/**
 What each decision of the decision core guarantees about the state it was taken in. Every
 decision but one leads only to permitted events; the exception is a repair route whose target
 is already running.
 */
module DecisionSoundness {
  import opened Wrappers
  import opened Identifiers
  import opened Definition
  import opened RunEvents
  import opened RunStates
  import Loops
  import opened Stopping
  import opened DecisionCore
  import opened RunProtocol
  import opened Causes

  ghost predicate Sound(config: Config, state: RunState, decision: Decision) {
    decision.Idle? ||
    (&& !state.status.IsTerminal()
     && match decision
        case Start => state.status.Queued?
        case StartNode(node) =>
          state.status.Running? && state.outstanding == [] && MayStartNode(config, state, node)
        case PerformEffect(node, effect, attempt) =>
          && state.status.Running? && state.outstanding == [] && state.uncertain == []
          && (node, effect) !in state.completed && attempt == 0 && IsReady(config.definition, state, node)
        case RetryClaimedEffect(node, effect, attempt) =>
          && InDoubt(state, node, effect) && !MustNotRepeat(config, node, effect)
          && (HasKey(config, node, effect) ==> attempt == state.outstanding[0].attempt)
        case HaltUncertainEffect(node, effect) => InDoubt(state, node, effect)
        case StopLoop(region, reason) =>
          && state.LoopOf(region).stopped.None?
          && StopsFor(config.definition, state, region, reason)
        case StartIteration(region, index) =>
          MayStartIteration(config, state, region) && index == state.LoopOf(region).finished
        case FinishIteration(region, index) =>
          && state.LoopOf(region).stopped.None? && state.LoopOf(region).started > state.LoopOf(region).finished
          && index == state.LoopOf(region).finished
        case Compensate(compensation) =>
          var owed := PendingCompensations(config.definition, state);
          state.outstanding == [] && owed != [] && owed[0] == compensation
        case CancelRun(who) =>
          && state.cancelRequested == Some(who)
          && state.outstanding == [] && PendingCompensations(config.definition, state) == []
        case TimeOutNode(node) => node in state.running && state.outstanding == []
        case Suspend(wait) =>
          state.status.Running? && state.outstanding == [] && RouteEscalates(config.definition, state, wait)
        case ResumeWait(wait) => state.waitingOn == Some(wait)
        case CompleteRun => MayComplete(config, state)
        case FailRun(reason) => MayFail(config, state, reason) && FailsFor(config.definition, state, reason))
  }

  /** A failure is for cause; whether anything is still owed is settled afterwards. */
  ghost predicate SoundOrFails(config: Config, state: RunState, decision: Decision) {
    if decision.FailRun? then FailsFor(config.definition, state, decision.failed) else Sound(config, state, decision)
  }

  /** A claim in doubt outranks everything: it is retried or it halts the run. */
  lemma DoubtComesFirst(config: Config, state: RunState, now: Time)
    requires Good(config, state) && state.outstanding != [] && !state.status.IsTerminal()
    ensures Decide(config.definition, state, now).RetryClaimedEffect? ||
            Decide(config.definition, state, now).HaltUncertainEffect?
    ensures Sound(config, state, Decide(config.definition, state, now))
  {
    hide Admitted;
    assert state.outstanding[0] in state.outstanding;
    var claim := state.outstanding[0];
    assert AttemptOk(config, AsAttempt(claim));
    assert DecideNext(config.definition, state, now) == OutstandingDecision(config.definition, state).value;
  }

  /**
   What becomes of the first failure nobody has answered, by the route its running loop declares first:
   a repair or a retry with attempts left starts the node named, a spent retry stops the loop, an
   escalation suspends the run, and anything else fails it.
   */
  lemma FailuresFollowTheirRoutes(definition: Definition, state: RunState, node: Identifier, failure: ReportedFailure)
    requires IsFirst(UnresolvedNodes(state), node) && Awaits(state, node, failure)
    ensures var decision := FailureDecision(definition, state);
            var stop := Some(FailRun(NodeFailure(node, failure.kind, failure.detail)));
            match definition.graph.RegionOf(node)
            case None => decision == stop
            case Some(region) =>
              if region.kind.Plain? || state.LoopOf(region.id).stopped.Some? then decision == stop
              else
                var repairs := region.kind.spec.repairs;
                && ((forall i :: 0 <= i < |repairs| ==> repairs[i].failure != failure.kind) ==> decision == stop)
                && (Loops.FirstRoute(repairs, failure.kind, Reject) ==> decision == stop)
                && (forall to :: Loops.FirstRoute(repairs, failure.kind, Escalate(to)) ==>
                      decision == Some(Suspend(HumanGate(node, to))))
                && (forall target :: Loops.FirstRoute(repairs, failure.kind, Repair(target)) ==>
                      decision == Some(StartNode(target)))
                && (forall target, attempts :: Loops.FirstRoute(repairs, failure.kind, Retry(target, attempts)) ==>
                      decision == if Times(state, node, failure.kind) <= attempts then Some(StartNode(target))
                                  else Some(StopLoop(region.id, RepairExhausted(failure.kind))))
  {
    FirstIsUnique(UnresolvedNodes(state));
    assert First(UnresolvedNodes(state)) == node;
    Loops.FailureCountIsExact(state.FailuresOf(node), failure.kind);
    var region := definition.graph.RegionOf(node);
    if region.Some? && region.value.kind.Loop? {
      OneFirstRoute(region.value.kind.spec.repairs, failure.kind);
    }
    hide Loops.FirstRoute, Loops.Kinds, Loops.FailureCount;
  }

  /** Only one route can be first. */
  lemma OneFirstRoute(repairs: seq<RepairRoute>, kind: FailureKind)
    ensures forall route :: Loops.FirstRoute(repairs, kind, route) ==> Loops.RouteFor(repairs, kind) == Some(route)
  {
    forall route | Loops.FirstRoute(repairs, kind, route)
      ensures Loops.RouteFor(repairs, kind) == Some(route)
    {
      var i :| 0 <= i < |repairs| && repairs[i] == RepairRoute(kind, route)
               && forall j :: 0 <= j < i ==> repairs[j].failure != kind;
      var found := Loops.RouteFor(repairs, kind);
      assert found.Some?;
      var k :| 0 <= k < |repairs| && repairs[k] == RepairRoute(kind, found.value)
               && forall j :: 0 <= j < k ==> repairs[j].failure != kind;
      assert i == k;
    }
  }

  /** Whatever is decided about a failure has its cause in the definition. */
  lemma FailureDecisionIsSound(config: Config, state: RunState)
    requires state.outstanding == [] && state.status.Running?
    requires FailureDecision(config.definition, state).Some?
    ensures SoundOrFails(config, state, FailureDecision(config.definition, state).value)
  {
    var node := First(UnresolvedNodes(state));
    var reported := state.FailuresOf(node);
    var failure := reported[|reported| - 1];
    assert Awaits(state, node, failure);
    Loops.FailureCountIsExact(reported, failure.kind);
    var found := config.definition.graph.RegionOf(node);
    if found.Some? && InRunningLoop(config.definition, state, node, found.value) {
      RoutedIsSound(config, state, node, failure, found.value);
    }
  }

  lemma RoutedIsSound(config: Config, state: RunState, node: Identifier, failure: ReportedFailure, region: Region)
    requires state.outstanding == [] && state.status.Running? && Awaits(state, node, failure)
    requires UnresolvedNodes(state) != {} && First(UnresolvedNodes(state)) == node
    requires InRunningLoop(config.definition, state, node, region)
    ensures FailureDecision(config.definition, state).Some?
    ensures SoundOrFails(config, state, FailureDecision(config.definition, state).value)
  {
    var repairs, kind := region.kind.spec.repairs, failure.kind;
    Loops.FailureCountIsExact(state.FailuresOf(node), kind);
    OneFirstRoute(repairs, kind);
    hide Loops.FirstRoute, Loops.Kinds, Loops.FailureCount;
    match Loops.RouteFor(repairs, kind)
    case None =>
      forall route
        ensures !Routed(config.definition, state, node, failure, route)
      {
        assert !Loops.FirstRoute(repairs, kind, route);
      }
    case Some(route) =>
      assert Routed(config.definition, state, node, failure, route);
      if route.Retry? && Times(state, node, kind) > route.attempts {
        assert StopsOn(config.definition, state, region, RepairExhausted(kind));
      }
  }

  lemma StartingIsSound(config: Config, state: RunState, region: Region)
    requires LoopsOk(config, state) && state.outstanding == []
    requires region in config.definition.graph.regions && region.kind.Loop?
    requires OneLoopDecision(config.definition, state, region).Some?
    requires OneLoopDecision(config.definition, state, region).value.StartIteration?
    ensures MayStartIteration(config, state, region.id)
  {
    LoopOfIsBounded(config, state, region.id);
    if Admitted(config.definition) {
      forall declared | declared in config.definition.graph.regions && declared.kind.Loop? && declared.id == region.id
        ensures state.LoopOf(region.id).started < MaxStarts(declared.kind.spec)
      {
        SameRegion(config.definition, region, declared);
      }
    }
  }

  lemma SameRegion(definition: Definition, a: Region, b: Region)
    requires Admitted(definition) && a in definition.graph.regions && b in definition.graph.regions && a.id == b.id
    ensures a == b
  {
    var i :| 0 <= i < |definition.graph.regions| && definition.graph.regions[i] == a;
    var j :| 0 <= j < |definition.graph.regions| && definition.graph.regions[j] == b;
    assert i == j;
  }

  lemma {:induction false} IterationDecisionIsSound(config: Config, state: RunState, regions: seq<Region>)
    requires LoopsOk(config, state) && state.outstanding == [] && state.status.Running?
    requires forall region :: region in regions ==> region in config.definition.graph.regions
    ensures IterationDecision(config.definition, regions, state).Some? ==>
      var decision := IterationDecision(config.definition, regions, state).value;
      SoundOrFails(config, state, decision)
    ensures IterationDecision(config.definition, regions, state).None? ==>
      forall region :: region in regions && region.kind.Loop? ==> OneLoopDecision(config.definition, state, region).None?
  {
    if regions != [] {
      hide Admitted, LoopsOk;
      var region := regions[0];
      IterationDecisionIsSound(config, state, regions[1..]);
      if region.kind.Loop? {
        var own := OneLoopDecision(config.definition, state, region);
        if own.Some? && own.value.StartIteration? {
          StartingIsSound(config, state, region);
        }
      }
    }
  }

  /** A run with nothing left to do has every loop stopped because its condition went false. */
  lemma NothingLeftMeansLoopsDone(config: Config, state: RunState)
    requires Admitted(config.definition) && AllFinished(config, state)
    requires LoopDecision(config.definition.graph.regions, state).None?
    requires forall region :: region in config.definition.graph.regions && region.kind.Loop? ==>
      OneLoopDecision(config.definition, state, region).None?
    ensures LoopsDone(config, state)
  {
    forall region | region in config.definition.graph.regions && region.kind.Loop?
      ensures state.LoopOf(region.id).stopped == Some(ConditionFalse)
    {
      assert config.definition.graph.NodeOf(region.exit).Some?;
      assert state.HasFinished(region.exit);
      assert RegionReachable(config.definition, state, region) by {
        forall node | node in config.definition.graph.PredecessorsOf(region.entry)
          ensures state.HasFinished(node)
        {
          assert config.definition.graph.NodeOf(node).Some?;
        }
      }
    }
  }

  lemma WorkDecisionIsSound(config: Config, state: RunState)
    requires state.outstanding == [] && state.uncertain == [] && state.status.Running?
    requires state.cancelRequested.None?
    requires UnresolvedNodes(state) == {}
    requires LoopDecision(config.definition.graph.regions, state).None?
    requires forall region :: region in config.definition.graph.regions && region.kind.Loop? ==>
      OneLoopDecision(config.definition, state, region).None?
    ensures Sound(config, state, WorkDecision(config.definition, state))
  {
    if WorkDecision(config.definition, state).CompleteRun? && Admitted(config.definition) {
      NothingLeftMeansLoopsDone(config, state);
    }
  }

  /** A loop is stopped, or the run failed over one, for cause. */
  lemma {:induction false} LoopDecisionIsSound(config: Config, state: RunState, regions: seq<Region>)
    requires state.outstanding == [] && state.status.Running?
    requires forall region :: region in regions ==> region in config.definition.graph.regions
    requires LoopDecision(regions, state).Some?
    ensures SoundOrFails(config, state, LoopDecision(regions, state).value)
  {
    var region := regions[0];
    if region.kind.Loop? && state.LoopOf(region.id).stopped.None?
       && StopReasonFor(region.kind.spec, state, state.LoopOf(region.id)).Some? {
      StopReasonIsSound(config, state, region);
    } else if !(region.kind.Loop? && state.LoopOf(region.id).stopped.Some?
                && !state.LoopOf(region.id).stopped.value.ConditionFalse?) {
      hide StopReasonFor, SoundOrFails;
      LoopDecisionIsSound(config, state, regions[1..]);
    }
  }

  lemma StopReasonIsSound(config: Config, state: RunState, region: Region)
    requires region in config.definition.graph.regions && region.kind.Loop?
    requires StopReasonFor(region.kind.spec, state, state.LoopOf(region.id)).Some?
    ensures StopsFor(config.definition, state, region.id, StopReasonFor(region.kind.spec, state, state.LoopOf(region.id)).value)
  {
    assert StopsOn(config.definition, state, region, StopReasonFor(region.kind.spec, state, state.LoopOf(region.id)).value);
  }

  lemma RunningDecisionIsSound(config: Config, state: RunState, now: Time)
    requires Good(config, state) && state.status.Running?
    requires state.outstanding == [] && state.uncertain == [] && state.cancelRequested.None?
    ensures var decision := DecideRunning(config.definition, state, now);
            SoundOrFails(config, state, decision)
  {
    var regions := config.definition.graph.regions;
    hide LoopDecision, FailureDecision, IterationDecision, WorkDecision;
    hide Admitted, LoopsOk, ClaimsOk, EndOk, HistoryOk, MayComplete;
    if TimedOutNode(config.definition, state, now).None? && !RunDeadlinePassed(config.definition, state, now)
       && LoopDecision(regions, state).Some? {
      LoopDecisionIsSound(config, state, regions);
    } else if TimedOutNode(config.definition, state, now).None? && !RunDeadlinePassed(config.definition, state, now) {
      if FailureDecision(config.definition, state).Some? {
        FailureDecisionIsSound(config, state);
      } else {
        IterationDecisionIsSound(config, state, regions);
        NoFailureLeft(config, state);
        if IterationDecision(config.definition, regions, state).None? {
          WorkDecisionIsSound(config, state);
        }
      }
    }
  }

  lemma NoFailureLeft(config: Config, state: RunState)
    requires FailureDecision(config.definition, state).None?
    ensures UnresolvedNodes(state) == {}
  {
  }

  /** Every decision taken in a good state is sound in it. */
  lemma DecisionIsSound(config: Config, state: RunState, now: Time)
    requires Good(config, state)
    ensures Sound(config, state, Decide(config.definition, state, now))
  {
    if state.status.IsTerminal() {
      hide Good;
    } else if state.outstanding != [] {
      DoubtComesFirst(config, state, now);
    } else {
      SettledDecisionIsSound(config, state, now);
    }
  }

  lemma SettledDecisionIsSound(config: Config, state: RunState, now: Time)
    requires Good(config, state) && !state.status.IsTerminal() && state.outstanding == []
    ensures Sound(config, state, Decide(config.definition, state, now))
  {
    if state.uncertain == [] && state.cancelRequested.None? && state.status.Running? {
      WorkIsSound(config, state, now);
    } else {
      AnsweringIsSound(config, state, now);
    }
    hide Good, Sound, Decide;
  }

  lemma WorkIsSound(config: Config, state: RunState, now: Time)
    requires Good(config, state) && state.outstanding == [] && state.uncertain == []
    requires state.cancelRequested.None? && state.status.Running?
    ensures Sound(config, state, Decide(config.definition, state, now))
  {
    RunningDecisionIsSound(config, state, now);
    assert DecideNext(config.definition, state, now) == DecideRunning(config.definition, state, now) by {
      hide DecideRunning;
    }
    hide Good, DecideRunning, DecideNext, PendingCompensations, FailsFor, MayComplete;
    hide IsReady, MayStartNode, StopsFor, RouteEscalates, MayStartIteration, MustNotRepeat, HasKey;
  }

  /** Doubt, a cancellation, a wait, or a run that has not begun. */
  lemma AnsweringIsSound(config: Config, state: RunState, now: Time)
    requires Good(config, state) && !state.status.IsTerminal() && state.outstanding == []
    requires state.uncertain != [] || state.cancelRequested.Some? || !state.status.Running?
    ensures Sound(config, state, Decide(config.definition, state, now))
  {
    hide Admitted, LoopsOk, ClaimsOk, EndOk, HistoryOk, MayComplete, DecideRunning, PendingCompensations;
    hide IsReady, MayStartNode, StopsFor, RouteEscalates, MayStartIteration, MustNotRepeat, HasKey;
  }

  /** A loop may go on: nothing it declared is spent, broken or at a standstill. */
  predicate InBounds(spec: LoopSpec, spent: Spent, progress: LoopProgress) {
    var budget := spec.budget;
    && spent.wallMs < budget.wallMs
    && (budget.tokens == 0 || spent.tokens < budget.tokens)
    && (budget.costMicroUnits == 0 || spent.costMicroUnits < budget.costMicroUnits)
    && (budget.effectCount == 0 || spent.effects < budget.effectCount)
    && progress.failedInvariant.None?
    && (spec.progress.Some? ==> progress.stalled < 2 && !MovedBack(spec.progress.value.direction, progress))
  }

  /** The loops leave the decision to others exactly when each is in bounds or ended on its condition. */
  lemma {:induction false} LoopsGoOnExactlyWhen(regions: seq<Region>, state: RunState)
    ensures LoopDecision(regions, state).None? <==>
      forall region :: region in regions && region.kind.Loop? ==>
        match state.LoopOf(region.id).stopped
        case None => InBounds(region.kind.spec, state.spent, state.LoopOf(region.id))
        case Some(reason) => reason.ConditionFalse?
  {
    if regions != [] {
      LoopsGoOnExactlyWhen(regions[1..], state);
      var region := regions[0];
      assert forall each :: each in regions <==> each == region || each in regions[1..];
      if region.kind.Loop? {
        StopsExactlyWhen(region.kind.spec, state, state.LoopOf(region.id));
      }
      hide StopReasonFor, InBounds;
    }
  }

  lemma StopsExactlyWhen(spec: LoopSpec, state: RunState, progress: LoopProgress)
    ensures StopReasonFor(spec, state, progress).None? <==> InBounds(spec, state.spent, progress)
  {
  }

  /** A waiting run is left alone until its timer is due: events and decisions come from outside. */
  lemma WaitsUntilDue(definition: Definition, state: RunState, now: Time)
    requires state.status.Waiting? && state.outstanding == [] && state.uncertain == [] && state.cancelRequested.None?
    ensures var decision := Decide(definition, state, now);
            && (decision.Idle? || (decision.ResumeWait? && state.waitingOn == Some(decision.wait)))
            && (decision.ResumeWait? <==>
                  state.waitingOn.Some? && state.waitingOn.value.Timer? && state.waitingOn.value.until <= now)
  {
  }
}
