/**
 The decision function as a table: which condition on definition, state and time leads to which decision,
 in order of priority. Conditions are said on edges, readings, clocks and counters, and "first" is the
 first in canonical order.
 */
module DecisionTable {
  import opened Wrappers
  import opened Identifiers
  import opened Definition
  import opened RunEvents
  import opened RunStates
  import opened Stopping
  import opened DecisionCore
  import opened Causes
  import opened DecisionSoundness

  // ---- Readiness and deadlines. ----

  lemma ReadyExactlyWhen(definition: Definition, state: RunState, node: Identifier)
    ensures IsReady(definition, state, node) <==> Startable(definition, state, node)
  {
    forall predecessor
      ensures Settled(definition, state, node, predecessor) <==> DoneFor(definition, state, node, predecessor)
    {
    }
    assert IterationOpenFor(definition, state, node) <==> InsideOpenIteration(definition, state, node);
    hide Settled, DoneFor, IterationOpenFor, InsideOpenIteration;
    if IsReady(definition, state, node) {
      forall edge, source |
        edge in definition.graph.edges && node in edge.targets && source in edge.sources && source != node
        ensures DoneFor(definition, state, node, source)
      {
        assert source in definition.graph.PredecessorsOf(node);
      }
    }
  }

  /** A deadline has passed exactly when one is set and the whole of it has gone by. */
  lemma DeadlineExactlyWhen(started: Time, now: Time, wallMs: nat)
    ensures PastDeadline(started, now, wallMs) <==> 0 < wallMs <= I64_MAX && now - started >= wallMs
  {
  }

  predicate RunsLate(definition: Definition, state: RunState, now: Time, node: Identifier) {
    && node in state.running
    && var declared := definition.graph.NodeOf(node);
       declared.Some? && 0 < declared.value.wallMs <= I64_MAX && now - state.running[node] >= declared.value.wallMs
  }

  predicate RunLate(definition: Definition, state: RunState, now: Time) {
    state.startedAt.Some? && 0 < definition.wallMs <= I64_MAX && now - state.startedAt.value >= definition.wallMs
  }

  lemma LateExactlyWhen(definition: Definition, state: RunState, now: Time)
    ensures RunDeadlinePassed(definition, state, now) <==> RunLate(definition, state, now)
    ensures match TimedOutNode(definition, state, now)
            case None => forall node :: !RunsLate(definition, state, now, node)
            case Some(node) =>
              && RunsLate(definition, state, now, node)
              && forall other :: RunsLate(definition, state, now, other) ==> Precedes(node, other)
  {
    if state.startedAt.Some? {
      DeadlineExactlyWhen(state.startedAt.value, now, definition.wallMs);
    }
    forall node
      ensures Overdue(definition, state, now, node) <==> RunsLate(definition, state, now, node)
    {
      if node in state.running && definition.graph.NodeOf(node).Some? {
        DeadlineExactlyWhen(state.running[node], now, definition.graph.NodeOf(node).value.wallMs);
      }
    }
    var late := set node | node in state.running && Overdue(definition, state, now, node);
    assert forall node :: node in late <==> RunsLate(definition, state, now, node);
  }

  // ---- Loops. ----

  /** A loop that stands in the way: stopped short, or out of bounds. */
  predicate Stands(state: RunState, region: Region) {
    && region.kind.Loop?
    && match state.LoopOf(region.id).stopped
       case Some(reason) => !reason.ConditionFalse?
       case None => !InBounds(region.kind.spec, state.spent, state.LoopOf(region.id))
  }

  lemma {:induction false} FirstStandingLoop(definition: Definition, regions: seq<Region>, state: RunState, i: nat)
    requires i < |regions| && Stands(state, regions[i]) && forall j :: 0 <= j < i ==> !Stands(state, regions[j])
    ensures var decision, progress := LoopDecision(regions, state), state.LoopOf(regions[i].id);
            && decision.Some?
            && match progress.stopped
               case Some(reason) => decision.value == FailRun(LoopFailure(regions[i].id, reason))
               case None =>
                 && decision.value.StopLoop? && decision.value.region == regions[i].id
                 && StopsOn(definition, state, regions[i], decision.value.reason)
  {
    var region := regions[0];
    if region.kind.Loop? {
      StopsExactlyWhen(region.kind.spec, state, state.LoopOf(region.id));
    }
    if i > 0 {
      assert !Stands(state, regions[0]);
      assert forall j :: 0 <= j < |regions| - 1 ==> regions[1..][j] == regions[j + 1];
      FirstStandingLoop(definition, regions[1..], state, i - 1);
      hide StopReasonFor, InBounds, StopsOn;
    }
  }

  lemma NoStandingLoop(regions: seq<Region>, state: RunState)
    requires forall i :: 0 <= i < |regions| ==> !Stands(state, regions[i])
    ensures LoopDecision(regions, state).None?
  {
    LoopsGoOnExactlyWhen(regions, state);
    hide InBounds;
    assert forall region :: region in regions ==> !Stands(state, region);
  }

  /** What a loop that is due has to do next. */
  ghost predicate DueTo(definition: Definition, state: RunState, region: Region, decision: Decision) {
    && region.kind.Loop? && state.LoopOf(region.id).stopped.None?
    && var spec, progress := region.kind.spec, state.LoopOf(region.id);
       var next := spec.continuation;
       if progress.started > progress.finished then
         state.HasFinished(region.exit) && decision == FinishIteration(region.id, progress.finished)
       else if progress.finished == 0 then
         && (forall edge, source ::
               (&& edge in definition.graph.edges && region.entry in edge.targets && source in edge.sources
                && source != region.entry && source !in region.nodes) ==>
               state.HasFinished(source))
         && decision == StartIteration(region.id, 0)
       else if Reported(state, next, true) then
         decision == if progress.started >= spec.budget.maxIterations
                     then StopLoop(region.id, BudgetExhausted(Iterations)) else StartIteration(region.id, progress.finished)
       else if Reported(state, next, false) then decision == StopLoop(region.id, ConditionFalse)
       else decision == FailRun(ControlMissing(region.id, next.evaluatedBy, next.port))
  }

  lemma OneLoopExactly(definition: Definition, state: RunState, region: Region, decision: Decision)
    requires region.kind.Loop?
    ensures OneLoopDecision(definition, state, region) == Some(decision) <==> DueTo(definition, state, region, decision)
  {
    var graph := definition.graph;
    forall predecessor
      ensures predecessor in graph.PredecessorsOf(region.entry) <==>
        exists edge :: (
          edge in graph.edges && region.entry in edge.targets && predecessor in edge.sources && predecessor != region.entry)
    {
    }
  }

  lemma {:induction false} FirstDueLoop(
    definition: Definition, regions: seq<Region>, state: RunState, i: nat, decision: Decision)
    requires i < |regions| && DueTo(definition, state, regions[i], decision)
    requires forall j, other :: 0 <= j < i ==> !DueTo(definition, state, regions[j], other)
    ensures IterationDecision(definition, regions, state) == Some(decision)
  {
    var own := if regions[0].kind.Loop? then OneLoopDecision(definition, state, regions[0]) else None;
    if i == 0 {
      OneLoopExactly(definition, state, regions[0], decision);
    } else {
      if own.Some? {
        OneLoopExactly(definition, state, regions[0], own.value);
        assert false;
      }
      hide OneLoopDecision, DueTo;
      assert forall j :: 0 <= j < |regions| - 1 ==> regions[1..][j] == regions[j + 1];
      FirstDueLoop(definition, regions[1..], state, i - 1, decision);
    }
  }

  lemma {:induction false} NoDueLoop(definition: Definition, regions: seq<Region>, state: RunState)
    requires forall j, other :: 0 <= j < |regions| ==> !DueTo(definition, state, regions[j], other)
    ensures IterationDecision(definition, regions, state).None?
  {
    if regions != [] {
      var own := if regions[0].kind.Loop? then OneLoopDecision(definition, state, regions[0]) else None;
      if own.Some? {
        OneLoopExactly(definition, state, regions[0], own.value);
        assert false;
      }
      hide OneLoopDecision, DueTo;
      assert forall j :: 0 <= j < |regions| - 1 ==> regions[1..][j] == regions[j + 1];
      NoDueLoop(definition, regions[1..], state);
    }
  }

  // ---- Nodes. ----

  /** How a startable node is begun: its first effect, unless that was finalized before, or the node itself. */
  function BeginsWith(state: RunState, node: Node): Decision {
    if node.kind.EffectNode? && node.effects != [] && (node.id, node.effects[0].id) !in state.completed
    then PerformEffect(node.id, node.effects[0].id, 0) else StartNode(node.id)
  }

  lemma {:induction false} FirstStartableNode(definition: Definition, nodes: seq<Node>, state: RunState, i: nat)
    requires i < |nodes| && Startable(definition, state, nodes[i].id)
    requires forall j :: 0 <= j < i ==> !Startable(definition, state, nodes[j].id)
    ensures NextReadyNode(definition, nodes, state) == Some(nodes[i])
  {
    ReadyExactlyWhen(definition, state, nodes[0].id);
    hide Startable, IsReady;
    if i > 0 {
      assert forall j :: 0 <= j < |nodes| - 1 ==> nodes[1..][j] == nodes[j + 1];
      FirstStartableNode(definition, nodes[1..], state, i - 1);
    }
  }

  lemma NoStartableNode(definition: Definition, state: RunState)
    requires forall node :: node in definition.graph.nodes ==> !Startable(definition, state, node.id)
    ensures NextReadyNode(definition, definition.graph.nodes, state).None?
  {
    var ready := NextReadyNode(definition, definition.graph.nodes, state);
    if ready.Some? {
      ReadyExactlyWhen(definition, state, ready.value.id);
      assert false;
    }
  }

  // ---- The table. ----

  /** A failure waits until nothing is owed: the newest compensation comes first. */
  function OnceSettled(definition: Definition, state: RunState, decision: Decision): Decision {
    var owed := PendingCompensations(definition, state);
    if decision.FailRun? && owed != [] then Compensate(owed[0]) else decision
  }

  /** How an open claim of a declared effect is answered. */
  function AnswerToClaim(claim: OutstandingEffect, declared: Effect): Decision {
    match declared.idempotency
    case Idempotent => RetryClaimedEffect(claim.node, claim.effect, SaturatingAdd(claim.attempt, 1, U32_MAX))
    case Keyed(_) => RetryClaimedEffect(claim.node, claim.effect, claim.attempt)
    case NonIdempotent => HaltUncertainEffect(claim.node, claim.effect)
  }

  /** Everything that is decided before the run's own work is looked at. */
  lemma DecidesBeforeWork(definition: Definition, state: RunState, now: Time)
    ensures var decision, owed := Decide(definition, state, now), PendingCompensations(definition, state);
            var declared := if state.outstanding == [] then None
                            else definition.graph.EffectOf(state.outstanding[0].node, state.outstanding[0].effect);
            decision ==
              if state.status.IsTerminal() then Idle
              else if declared.Some? then AnswerToClaim(state.outstanding[0], declared.value)
              else if state.uncertain != [] then
                OnceSettled(definition, state, FailRun(EffectDoubt(state.uncertain[0].0, state.uncertain[0].1)))
              else if state.cancelRequested.Some? && owed != [] then Compensate(owed[0])
              else if state.cancelRequested.Some? && state.outstanding == [] then CancelRun(state.cancelRequested.value)
              else if state.status.Waiting? then
                if state.waitingOn.Some? && state.waitingOn.value.Timer? && state.waitingOn.value.until <= now
                then ResumeWait(state.waitingOn.value) else Idle
              else if state.status.Queued? then Start
              else OnceSettled(definition, state, DecideRunning(definition, state, now))
  {
    hide DecideRunning, PendingCompensations;
  }

  /** What a run that is under way decides: late nodes, the run's own deadline, loops in the way, then failures. */
  lemma DecidesWhatStandsInTheWay(definition: Definition, state: RunState, now: Time)
    ensures var decision, regions := DecideRunning(definition, state, now), definition.graph.regions;
            if exists node :: RunsLate(definition, state, now, node) then
              && decision.TimeOutNode? && RunsLate(definition, state, now, decision.node)
              && forall other :: RunsLate(definition, state, now, other) ==> Precedes(decision.node, other)
            else if RunLate(definition, state, now) then decision == FailRun(BudgetSpent("wall time"))
            else if exists i :: 0 <= i < |regions| && Stands(state, regions[i]) then
              LoopDecision(regions, state) == Some(decision)
            else
              && LoopDecision(regions, state).None?
              && (UnresolvedNodes(state) != {} ==> FailureDecision(definition, state) == Some(decision))
              && (UnresolvedNodes(state) == {} ==> decision == DecideWork(definition, state))
  {
    LateExactlyWhen(definition, state, now);
    var regions := definition.graph.regions;
    hide RunsLate, RunLate, Stands, TimedOutNode, RunDeadlinePassed, LoopDecision, IterationDecision, WorkDecision;
    if exists i :: 0 <= i < |regions| && Stands(state, regions[i]) {
      var i := FirstStanding(regions, state);
      FirstStandingLoop(definition, regions, state, i);
    } else {
      NoStandingLoop(regions, state);
    }
  }

  lemma {:induction false} FirstStanding(regions: seq<Region>, state: RunState) returns (i: nat)
    requires exists k :: 0 <= k < |regions| && Stands(state, regions[k])
    ensures i < |regions| && Stands(state, regions[i]) && forall j :: 0 <= j < i ==> !Stands(state, regions[j])
  {
    i := 0;
    while !Stands(state, regions[i])
      invariant i < |regions| && forall j :: 0 <= j < i ==> !Stands(state, regions[j])
      decreases |regions| - i
    {
      i := i + 1;
    }
  }

  /** The run's own work, once nothing stands in its way. */
  function DecideWork(definition: Definition, state: RunState): Decision {
    match IterationDecision(definition, definition.graph.regions, state)
    case Some(decision) => decision
    case None => WorkDecision(definition, state)
  }

  /** Loops that are due come first, then the first startable node, then completion; otherwise the run waits. */
  lemma DecidesWorkInOrder(definition: Definition, state: RunState)
    ensures var decision, graph := DecideWork(definition, state), definition.graph;
            && (forall i, due ::
                  (&& 0 <= i < |graph.regions| && DueTo(definition, state, graph.regions[i], due)
                   && forall j, other :: 0 <= j < i ==> !DueTo(definition, state, graph.regions[j], other)) ==>
                  decision == due)
            && ((forall j, other :: 0 <= j < |graph.regions| ==> !DueTo(definition, state, graph.regions[j], other)) ==>
                  && (forall i ::
                        (&& 0 <= i < |graph.nodes| && Startable(definition, state, graph.nodes[i].id)
                         && forall j :: 0 <= j < i ==> !Startable(definition, state, graph.nodes[j].id)) ==>
                        decision == BeginsWith(state, graph.nodes[i]))
                  && ((forall node :: node in graph.nodes ==> !Startable(definition, state, node.id)) ==>
                        decision == if state.running == map[] && forall node :: node in graph.nodes ==> state.HasFinished(node.id)
                                    then CompleteRun else Idle))
  {
    var graph := definition.graph;
    hide DueTo, Startable, IterationDecision, NextReadyNode;
    forall i, due | 0 <= i < |graph.regions| && DueTo(definition, state, graph.regions[i], due)
                    && (forall j, other :: 0 <= j < i ==> !DueTo(definition, state, graph.regions[j], other))
      ensures DecideWork(definition, state) == due
    {
      FirstDueLoop(definition, graph.regions, state, i, due);
    }
    if forall j, other :: 0 <= j < |graph.regions| ==> !DueTo(definition, state, graph.regions[j], other) {
      NoDueLoop(definition, graph.regions, state);
      forall i | 0 <= i < |graph.nodes| && Startable(definition, state, graph.nodes[i].id)
                 && (forall j :: 0 <= j < i ==> !Startable(definition, state, graph.nodes[j].id))
        ensures DecideWork(definition, state) == BeginsWith(state, graph.nodes[i])
      {
        FirstStartableNode(definition, graph.nodes, state, i);
      }
      if forall node :: node in graph.nodes ==> !Startable(definition, state, node.id) {
        NoStartableNode(definition, state);
      }
    }
  }
}
