/**
 The two ways a log stops folding, each reached by one concrete run of a two-node loop: a repair
 route names a node that a dead worker left running, and a signal answers a run that was cancelled
 while it waited.
 */
module BrokenLogs {
  import opened Wrappers
  import opened Identifiers
  import opened IR = Definition
  import opened RunEvents
  import opened RunStates
  import opened Waits
  import opened Stopping
  import opened DecisionCore
  import opened RunProtocol
  import opened GraphWorkers
  import opened GraphWorkerTheorems
  import Loops

  const SPEC := LoopSpec(
    Continuation("a", "again"), LoopBudget(1, 1, 0, 0, 0), [], None,
    [RepairRoute(MissingEvidence, Repair("a")), RepairRoute(StaleReference, Escalate("h"))])

  const REGION := Region("r", Loop(SPEC), "a", "b", {"a", "b"})

  const CONFIG := Config(
    "run",
    IR.Definition(
      Graph([Node("a", ComputeNode, [], 0), Node("b", ComputeNode, [], 0)], [REGION], []), 0))

  const W: WorkerId := "w"

  const ADMISSION := Admission("d", "m")

  function At(position: nat, epoch: nat, event: RunEvent): RecordedEvent {
    RecordedEvent(position, epoch, 0, event)
  }

  /** Some interleaving leads to this system. */
  ghost predicate Reachable(s: System) {
    exists steps :: s == After(CONFIG, ADMISSION, 0, steps)
  }

  lemma ReachableStep(s: System, step: Step)
    requires Reachable(s)
    ensures Reachable(Do(CONFIG, s, step))
  {
    hide Do;
    var steps :| s == After(CONFIG, ADMISSION, 0, steps);
    assert (steps + [step])[..|steps|] == steps;
    assert Do(CONFIG, s, step) == After(CONFIG, ADMISSION, 0, steps + [step]);
  }

  /** The worker can come to own the run at this epoch, with this log, in this phase. */
  ghost predicate Stands(epoch: nat, log: seq<RecordedEvent>, phase: Phase) {
    exists s :: Reachable(s) && StandsIn(s, epoch, log, phase)
  }

  predicate StandsIn(s: System, epoch: nat, log: seq<RecordedEvent>, phase: Phase) {
    && s.epoch == epoch && s.log == log
    && W in s.workers && s.workers[W].epoch == epoch && s.workers[W].phase == phase && s.workers[W].now == 0
  }

  /** One turn of the worker: fold the log and take up the decision. */
  lemma Turn(epoch: nat, log: seq<RecordedEvent>, state: RunState, decision: Decision, phase: Phase)
    requires Stands(epoch, log, Ready) && Fold(log) == Ok(state)
    requires Decide(CONFIG.definition, state, 0) == decision && Begin(CONFIG, state, decision, 0, "w") == Some(phase)
    ensures Stands(epoch, log, phase)
  {
    hide Begin, Decide, Fold, Reachable;
    var s :| Reachable(s) && StandsIn(s, epoch, log, Ready);
    var folded := Do(CONFIG, s, FoldTheLog(W, 0));
    ReachableStep(s, FoldTheLog(W, 0));
    ReachableStep(folded, DecideNow(W, "w"));
    assert StandsIn(Do(CONFIG, folded, DecideNow(W, "w")), epoch, log, phase);
  }

  /** The worker appends the event its phase calls for. */
  lemma Write(epoch: nat, log: seq<RecordedEvent>, phase: Phase, event: RunEvent)
    requires Stands(epoch, log, phase) && PendingEvent(phase) == Some(event)
    ensures Stands(epoch, log + [At(|log|, epoch, event)], PhaseAfterAppend(phase, |log|))
  {
    hide PendingEvent, PhaseAfterAppend, Reachable;
    var s :| Reachable(s) && StandsIn(s, epoch, log, phase);
    ReachableStep(s, Append(W, 0));
    assert StandsIn(Do(CONFIG, s, Append(W, 0)), epoch, log + [At(|log|, epoch, event)], PhaseAfterAppend(phase, |log|));
  }

  /** The node the worker started fails. */
  lemma Fails(epoch: nat, log: seq<RecordedEvent>, node: Identifier, p: nat, failure: FailureKind)
    requires Stands(epoch, log, RunningNode(node, p))
    ensures Stands(epoch, log + [At(|log|, epoch, NodeFailed(node, failure, ""))], Ready)
  {
    hide Reachable;
    var s :| Reachable(s) && StandsIn(s, epoch, log, RunningNode(node, p));
    var outcome := NodeRefused(failure, "");
    ReachableStep(s, GraphWorkers.RunNode(W, outcome));
    assert StandsIn(Do(CONFIG, s, GraphWorkers.RunNode(W, outcome)), epoch, log, ClosingNode(node, outcome));
    Write(epoch, log, ClosingNode(node, outcome), NodeFailed(node, failure, ""));
  }

  /** The worker dies and the run is leased again. */
  lemma TakesOver(epoch: nat, log: seq<RecordedEvent>, phase: Phase)
    requires Stands(epoch, log, phase) && !ProjectedStatus(log).IsTerminal()
    ensures Stands(epoch + 1, log, Ready)
    ensures Stands(epoch + 1, log, Appending(CancellationRequested("c")))
  {
    hide Reachable, ProjectedStatus;
    var s :| Reachable(s) && StandsIn(s, epoch, log, phase);
    ReachableStep(s, Lease(W));
    ReachableStep(s, LeaseToCancel(W, "c", 0));
    assert StandsIn(Do(CONFIG, s, Lease(W)), epoch + 1, log, Ready);
    assert StandsIn(Do(CONFIG, s, LeaseToCancel(W, "c", 0)), epoch + 1, log, Appending(CancellationRequested("c")));
  }

  lemma FirstLease()
    ensures Stands(1, [At(0, 0, ADMISSION)], Ready)
  {
    var s := Created(ADMISSION, 0);
    assert Run(CONFIG, s, []) == s;
    assert s == After(CONFIG, ADMISSION, 0, []);
    assert ProjectedStatus(s.log) == Queued by { assert s.log[..0] == []; }
    ReachableStep(s, Lease(W));
    assert StandsIn(Do(CONFIG, s, Lease(W)), 1, s.log, Ready);
  }

  /** Folding a log one event longer. */
  lemma FoldMore(log: seq<RecordedEvent>, state: RunState, recorded: RecordedEvent)
    requires Fold(log) == Ok(state)
    ensures Fold(log + [recorded]) == Apply(state, recorded)
  {
    assert (log + [recorded])[..|log|] == log;
  }

  const LOG1 := [At(0, 0, ADMISSION), At(1, 1, Started("w"))]
  const STATE1 := Opening(0).(status := Running, startedAt := Some(0), nextPosition := 2, epoch := 1)

  lemma StartsRun()
    ensures Stands(1, LOG1, Ready) && Fold(LOG1) == Ok(STATE1)
  {
    var log := [At(0, 0, ADMISSION)];
    FirstLease();
    assert Fold(log) == Ok(Opening(0));
    assert Decide(CONFIG.definition, Opening(0), 0) == Start;
    hide Decide;
    Turn(1, log, Opening(0), Start, Appending(Started("w")));
    Write(1, log, Appending(Started("w")), Started("w"));
    assert log + [At(1, 1, Started("w"))] == LOG1;
    FoldMore(log, Opening(0), At(1, 1, Started("w")));
  }

  const OPENED := IterationStarted("r", 0, {"a", "b"})
  const LOG2 := LOG1 + [At(2, 1, OPENED)]
  const OPEN := NO_PROGRESS.(started := 1, openedAt := Some(0))
  const STATE2 := STATE1.(loops := map["r" := OPEN], nextPosition := 3)

  /** A state of this run with no claim, doubt, cancellation or time limit to answer. */
  predicate Quiet(state: RunState) {
    && state.status.Running? && state.outstanding == [] && state.uncertain == [] && state.cancelRequested.None?
    && state.finalizedOrder == [] && state.spent == Spent(0, 0, 0, 0) && state.finished == map[]
    && (state.loops == map[] || state.loops == map["r" := OPEN])
  }

  lemma QuietStops(state: RunState)
    requires Quiet(state)
    ensures LoopDecision(CONFIG.definition.graph.regions, state).None?
  {
    var regions := CONFIG.definition.graph.regions;
    assert regions == [REGION] && regions[1..] == [];
    assert StopReasonFor(SPEC, state, state.LoopOf("r")).None?;
    assert LoopDecision([], state).None?;
  }

  lemma QuietTimes(state: RunState)
    requires Quiet(state)
    ensures TimedOutNode(CONFIG.definition, state, 0).None?
    ensures !RunDeadlinePassed(CONFIG.definition, state, 0)
  {
    forall node | node in state.running
      ensures !Overdue(CONFIG.definition, state, 0, node)
    {
      assert forall declared :: declared in CONFIG.definition.graph.nodes ==> declared.wallMs == 0;
    }
  }

  /** What is left to decide in such a state. */
  lemma QuietDecides(state: RunState)
    requires Quiet(state)
    ensures Decide(CONFIG.definition, state, 0) ==
      match FailureDecision(CONFIG.definition, state)
      case Some(decision) => if decision.FailRun? then Decide(CONFIG.definition, state, 0) else decision
      case None =>
        match IterationDecision(CONFIG.definition, CONFIG.definition.graph.regions, state)
        case Some(decision) => if decision.FailRun? then Decide(CONFIG.definition, state, 0) else decision
        case None => WorkDecision(CONFIG.definition, state)
  {
    QuietStops(state);
    QuietTimes(state);
    hide FailureDecision, IterationDecision, TimedOutNode, RunDeadlinePassed, LoopDecision;
    assert !WorkDecision(CONFIG.definition, state).FailRun?;
    hide WorkDecision;
  }

  lemma NoFailureIsQuiet(state: RunState)
    requires state.failures == map[]
    ensures FailureDecision(CONFIG.definition, state).None?
  {
  }

  lemma OnlyRegion(state: RunState)
    requires Quiet(state)
    ensures var decision := IterationDecision(CONFIG.definition, CONFIG.definition.graph.regions, state);
            && ("r" !in state.loops ==> decision == Some(StartIteration("r", 0)))
            && ("r" in state.loops ==> decision == None)
  {
    var regions := CONFIG.definition.graph.regions;
    assert regions == [REGION] && regions[1..] == [];
    assert CONFIG.definition.graph.PredecessorsOf("a") == {};
    assert IterationDecision(CONFIG.definition, [], state).None?;
  }

  lemma OpensIteration()
    ensures Stands(1, LOG2, Ready) && Fold(LOG2) == Ok(STATE2)
  {
    hide Begin, Decide, FailureDecision, IterationDecision, Fold, Stands;
    StartsRun();
    NoFailureIsQuiet(STATE1);
    OnlyRegion(STATE1);
    QuietDecides(STATE1);
    BeginsIteration();
    Turn(1, LOG1, STATE1, StartIteration("r", 0), Appending(OPENED));
    Write(1, LOG1, Appending(OPENED), OPENED);
    FoldMore(LOG1, STATE1, At(2, 1, OPENED));
    assert Apply(STATE1, At(2, 1, OPENED)) == Ok(STATE2);
  }

  lemma BeginsIteration()
    ensures Begin(CONFIG, STATE1, StartIteration("r", 0), 0, "w") == Some(Appending(OPENED))
  {
    assert CONFIG.definition.graph.regions[0] == REGION;
  }

  const LOG3 := LOG2 + [At(3, 1, NodeStarted("a"))]
  const STATE3 := STATE2.(running := map["a" := 0], nextPosition := 4)

  /** The next node to start: the first of the two that is not running. */
  lemma NextNode(state: RunState)
    requires Quiet(state) && state.loops == map["r" := OPEN] && "b" !in state.running
    ensures "a" !in state.running ==> WorkDecision(CONFIG.definition, state) == StartNode("a")
    ensures "a" in state.running ==> WorkDecision(CONFIG.definition, state) == StartNode("b")
  {
    var graph := CONFIG.definition.graph;
    var nodes := graph.nodes;
    assert nodes[1..][0].id == "b" && nodes[1..][1..] == [];
    assert graph.PredecessorsOf("a") == {} && graph.PredecessorsOf("b") == {};
    assert graph.RegionOf("a") == Some(REGION) && graph.RegionOf("b") == Some(REGION);
    assert IsReady(CONFIG.definition, state, "b");
    assert NextReadyNode(CONFIG.definition, nodes[1..], state) == Some(nodes[1]);
  }

  /** Takes the decision to start a node as far as its start in the log. */
  lemma StartsNode(epoch: nat, log: seq<RecordedEvent>, state: RunState, node: Identifier)
    requires Stands(epoch, log, Ready) && Fold(log) == Ok(state) && (node == "a" || node == "b")
    requires Decide(CONFIG.definition, state, 0) == StartNode(node)
    ensures Stands(epoch, log + [At(|log|, epoch, NodeStarted(node))], RunningNode(node, |log|))
  {
    hide Decide, Fold, Stands, Begin;
    BeginsNode(state, node);
    Turn(epoch, log, state, StartNode(node), OpeningNode(node));
    Write(epoch, log, OpeningNode(node), NodeStarted(node));
  }

  lemma BeginsNode(state: RunState, node: Identifier)
    requires node == "a" || node == "b"
    ensures Begin(CONFIG, state, StartNode(node), 0, "w") == Some(OpeningNode(node))
  {
    assert CONFIG.definition.graph.nodes[0].id == "a" && CONFIG.definition.graph.nodes[1].id == "b";
    assert CONFIG.definition.graph.NodeOf(node).Some?;
  }

  lemma StartsFirstNode()
    ensures Stands(1, LOG3, RunningNode("a", 3)) && Fold(LOG3) == Ok(STATE3)
  {
    hide Begin, Decide, FailureDecision, IterationDecision, Fold, Stands, WorkDecision;
    OpensIteration();
    NoFailureIsQuiet(STATE2);
    OnlyRegion(STATE2);
    NextNode(STATE2);
    QuietDecides(STATE2);
    StartsNode(1, LOG2, STATE2, "a");
    FoldMore(LOG2, STATE2, At(3, 1, NodeStarted("a")));
    assert Apply(STATE2, At(3, 1, NodeStarted("a"))) == Ok(STATE3);
  }

  // ---- A repair of a running node. ----

  const LOG4 := LOG3 + [At(4, 2, NodeStarted("b"))]
  const LOG5 := LOG4 + [At(5, 2, NodeFailed("b", MissingEvidence, ""))]
  const STATE5 := STATE3.(failures := map["b" := [ReportedFailure(MissingEvidence, "")]],
                          epoch := 2, nextPosition := 6)

  /** The worker running `a` dies; its successor runs `b`, which fails. */
  lemma SecondNodeFails()
    ensures Stands(2, LOG5, Ready) && Fold(LOG5) == Ok(STATE5)
  {
    hide Begin, Decide, FailureDecision, IterationDecision, Fold, Stands, WorkDecision;
    StartsFirstNode();
    NotOver();
    TakesOver(1, LOG3, RunningNode("a", 3));
    NoFailureIsQuiet(STATE3);
    OnlyRegion(STATE3);
    NextNode(STATE3);
    QuietDecides(STATE3);
    StartsNode(2, LOG3, STATE3, "b");
    Fails(2, LOG4, "b", 4, MissingEvidence);
    var state4 := STATE3.(running := map["a" := 0, "b" := 0], epoch := 2, nextPosition := 5);
    FoldMore(LOG3, STATE3, At(4, 2, NodeStarted("b")));
    assert Apply(STATE3, At(4, 2, NodeStarted("b"))) == Ok(state4);
    FoldMore(LOG4, state4, At(5, 2, NodeFailed("b", MissingEvidence, "")));
    assert "a" != "b";
    assert state4.running - {"b"} == STATE5.running;
    assert state4.FailuresOf("b") + [ReportedFailure(MissingEvidence, "")] == [ReportedFailure(MissingEvidence, "")];
    assert Apply(state4, At(5, 2, NodeFailed("b", MissingEvidence, ""))) == Ok(STATE5);
  }

  lemma NotOver()
    ensures !ProjectedStatus(LOG3).IsTerminal()
  {
    assert ProjectedStatus(LOG3) == Running;
  }

  lemma RepairsRunningNode()
    ensures FailureDecision(CONFIG.definition, STATE5) == Some(StartNode("a"))
  {
    assert UnresolvedNodes(STATE5) == {"b"};
    assert CONFIG.definition.graph.regions[0] == REGION;
    assert CONFIG.definition.graph.RegionOf("b") == Some(REGION);
    assert Loops.RouteFor(SPEC.repairs, MissingEvidence) == Some(Repair("a"));
  }

  /** A repair route that names a node left running makes the run's log unfoldable. */
  lemma RepairCanBreakTheLog()
    ensures exists steps :: Fold(After(CONFIG, ADMISSION, 0, steps).log) == Err(StartedTwice("a"))
  {
    hide Begin, Decide, FailureDecision, IterationDecision, Fold, Run, WorkDecision;
    SecondNodeFails();
    RepairsRunningNode();
    QuietDecides(STATE5);
    StartsNode(2, LOG5, STATE5, "a");
    var broken := At(6, 2, NodeStarted("a"));
    var s :| Reachable(s) && StandsIn(s, 2, LOG5 + [broken], RunningNode("a", 6));
    FoldMore(LOG5, STATE5, broken);
    var steps :| s == After(CONFIG, ADMISSION, 0, steps);
    assert Fold(After(CONFIG, ADMISSION, 0, steps).log) == Err(StartedTwice("a"));
  }

  // ---- A signal for a run that was cancelled while it waited. ----

  const GATE := HumanGate("a", "h")
  const LOG6 := LOG3 + [At(4, 1, NodeFailed("a", StaleReference, ""))]
  const STATE6 := STATE3.(running := map[], failures := map["a" := [ReportedFailure(StaleReference, "")]],
                          nextPosition := 5)
  const LOG7 := LOG6 + [At(5, 1, Suspended(GATE))]
  const STATE7 := STATE6.(status := Waiting, waitingOn := Some(GATE), nextPosition := 6)

  lemma EscalatesFailure()
    ensures FailureDecision(CONFIG.definition, STATE6) == Some(Suspend(GATE))
  {
    assert UnresolvedNodes(STATE6) == {"a"};
    assert CONFIG.definition.graph.regions[0] == REGION;
    assert CONFIG.definition.graph.RegionOf("a") == Some(REGION);
    assert SPEC.repairs[1..][0] == RepairRoute(StaleReference, Escalate("h"));
    assert Loops.RouteFor(SPEC.repairs, StaleReference) == Some(Escalate("h"));
  }

  lemma FirstNodeFails()
    ensures Stands(1, LOG6, Ready) && Fold(LOG6) == Ok(STATE6)
  {
    hide Fold, Stands;
    StartsFirstNode();
    Fails(1, LOG3, "a", 3, StaleReference);
    FoldMore(LOG3, STATE3, At(4, 1, NodeFailed("a", StaleReference, "")));
    assert STATE3.running - {"a"} == map[];
    assert STATE3.FailuresOf("a") + [ReportedFailure(StaleReference, "")] == [ReportedFailure(StaleReference, "")];
  }

  lemma Suspends()
    ensures Stands(1, LOG7, Ready) && Fold(LOG7) == Ok(STATE7)
  {
    hide Decide, FailureDecision, IterationDecision, Fold, Stands, WorkDecision;
    FirstNodeFails();
    EscalatesFailure();
    QuietDecides(STATE6);
    Turn(1, LOG6, STATE6, Suspend(GATE), Appending(Suspended(GATE)));
    Write(1, LOG6, Appending(Suspended(GATE)), Suspended(GATE));
    FoldMore(LOG6, STATE6, At(5, 1, Suspended(GATE)));
  }

  const LOG8 := LOG7 + [At(6, 2, CancellationRequested("c"))]
  const STATE8 := STATE7.(cancelRequested := Some("c"), epoch := 2, nextPosition := 7)
  const LOG9 := LOG8 + [At(7, 2, Cancelled("c"))]
  const STATE9 := STATE8.(status := Cancel, nextPosition := 8)

  lemma IsCancelled()
    ensures Stands(2, LOG9, Ready) && Fold(LOG9) == Ok(STATE9)
  {
    hide Fold, Stands, DecideRunning;
    Suspends();
    assert ProjectedStatus(LOG7) == Waiting;
    TakesOver(1, LOG7, Ready);
    Write(2, LOG7, Appending(CancellationRequested("c")), CancellationRequested("c"));
    FoldMore(LOG7, STATE7, At(6, 2, CancellationRequested("c")));
    assert Decide(CONFIG.definition, STATE8, 0) == CancelRun("c");
    Turn(2, LOG8, STATE8, CancelRun("c"), Appending(Cancelled("c")));
    Write(2, LOG8, Appending(Cancelled("c")), Cancelled("c"));
    FoldMore(LOG8, STATE8, At(7, 2, Cancelled("c")));
  }

  /** A signal that answers the wait of a cancelled run makes the run's log unfoldable. */
  lemma SignalCanBreakTheLog()
    ensures exists steps :: Fold(After(CONFIG, ADMISSION, 0, steps).log) == Err(AfterTerminal)
  {
    hide Fold, Run;
    IsCancelled();
    var s :| Reachable(s) && StandsIn(s, 2, LOG9, Ready);
    var folded := Do(CONFIG, s, FoldTheLog(W, 0));
    ReachableStep(s, FoldTheLog(W, 0));
    var signal := Signal(HumanDecision("h"), "p", {"h"});
    assert Resume(STATE9.waitingOn, signal, 0) == Ok(Resumed(GATE, "p"));
    var t := Do(CONFIG, folded, AnswerSignal(W, signal));
    ReachableStep(folded, AnswerSignal(W, signal));
    var broken := At(8, 2, Resumed(GATE, "p"));
    assert t.log == LOG9 + [broken];
    FoldMore(LOG9, STATE9, broken);
    var steps :| t == After(CONFIG, ADMISSION, 0, steps);
    assert Fold(After(CONFIG, ADMISSION, 0, steps).log) == Err(AfterTerminal);
  }
}
