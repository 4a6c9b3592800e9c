/**
 Run states and the strict fold that produces them (crates/runtime/src/state.rs): an event that does
 not fit the state before it refuses the whole log.
 */
module RunStates {
  import opened Wrappers
  import opened Identifiers
  import opened Definition
  import opened RunEvents

  datatype RunStatus = Queued | Running | Waiting | Complete | Failure | Cancel
  {
    predicate IsTerminal() {
      Complete? || Failure? || Cancel?
    }
  }

  datatype OutstandingEffect = OutstandingEffect(
    node: Identifier, effect: Identifier, attempt: nat, key: Option<string>)

  datatype LoopProgress = LoopProgress(
    started: nat,
    finished: nat,
    lastProgress: Option<int>,
    previousProgress: Option<int>,
    stalled: nat,
    openedAt: Option<Time>,
    failedInvariant: Option<Identifier>,
    stopped: Option<StopReason>)

  const NO_PROGRESS := LoopProgress(0, 0, None, None, 0, None, None, None)

  datatype ReportedFailure = ReportedFailure(kind: FailureKind, detail: string)

  datatype Spent = Spent(wallMs: nat, tokens: nat, costMicroUnits: nat, effects: nat)

  datatype FoldError =
    | OutOfOrder | NotAdmitted | AfterTerminal
    | FinishedWithoutStarting(node: Identifier)
    | StartedTwice(node: Identifier)
    | FinalizedWithoutClaim(node: Identifier, effect: Identifier)
    | IterationWithoutStart(region: Identifier)
    | IterationAlreadyOpen(region: Identifier)
    | ResumedWithoutWait

  type EffectRef = (Identifier, Identifier)

  datatype RunState = RunState(
    status: RunStatus,
    epoch: nat,
    nextPosition: nat,
    running: map<Identifier, Time>,
    finished: map<Identifier, Outputs>,
    outstanding: seq<OutstandingEffect>,
    completed: set<EffectRef>,
    finalizedOrder: seq<EffectRef>,
    compensated: set<EffectRef>,
    uncertain: seq<EffectRef>,
    loops: map<Identifier, LoopProgress>,
    failures: map<Identifier, seq<ReportedFailure>>,
    control: map<(Identifier, string), ControlValue>,
    spent: Spent,
    waitingOn: Option<Wait>,
    failure: Option<RunFailure>,
    startedAt: Option<Time>,
    cancelRequested: Option<Identifier>)
  {
    predicate HasFinished(node: Identifier) {
      node in finished
    }

    function LoopOf(region: Identifier): LoopProgress {
      if region in loops then loops[region] else NO_PROGRESS
    }

    function OutputsOf(node: Identifier): Outputs {
      if node in finished then finished[node] else map[]
    }

    function ControlOf(node: Identifier, port: string): Option<ControlValue> {
      if (node, port) in control then Some(control[(node, port)]) else None
    }

    function FailuresOf(node: Identifier): seq<ReportedFailure> {
      if node in failures then failures[node] else []
    }

    /** A failure nobody has answered: the node is neither running nor finished. */
    predicate Unresolved(node: Identifier) {
      node !in running && node !in finished && |FailuresOf(node)| > 0
    }
  }

  type Folding = Result<RunState, FoldError>

  function Opening(epoch: nat): RunState {
    RunState(Queued, epoch, 1, map[], map[], [], {}, [], {}, [], map[], map[], map[],
             Spent(0, 0, 0, 0), None, None, None, None)
  }

  /** The claims left once every claim on one effect is resolved. */
  function Without(claims: seq<OutstandingEffect>, node: Identifier, effect: Identifier):
    (rest: seq<OutstandingEffect>)
    ensures |rest| <= |claims|
    ensures forall claim :: claim in rest <==> claim in claims && !(claim.node == node && claim.effect == effect)
    ensures |rest| == |claims| <==> forall claim :: claim in claims ==> !(claim.node == node && claim.effect == effect)
    ensures rest == [] <==> forall claim :: claim in claims ==> claim.node == node && claim.effect == effect
  {
    if claims == [] then []
    else
      assert claims == [claims[0]] + claims[1..];
      var rest := Without(claims[1..], node, effect);
      if claims[0].node == node && claims[0].effect == effect then rest else [claims[0]] + rest
  }

  function ApplyEffect(state: RunState, event: RunEvent): Folding
    requires event.EffectClaimed? || event.EffectFinalized? || event.EffectAbandoned? || event.EffectUncertain?
  {
    match event
    case EffectClaimed(node, effect, attempt, key) =>
      Ok(state.(outstanding := state.outstanding + [OutstandingEffect(node, effect, attempt, key)],
                spent := state.spent.(effects := SaturatingAdd(state.spent.effects, 1, U32_MAX))))
    case EffectFinalized(node, effect, _, _) =>
      var rest := Without(state.outstanding, node, effect);
      if |rest| == |state.outstanding| then Err(FinalizedWithoutClaim(node, effect))
      else Ok(state.(outstanding := rest,
                     completed := state.completed + {(node, effect)},
                     finalizedOrder := state.finalizedOrder + [(node, effect)]))
    case EffectAbandoned(node, effect, _, _) =>
      Ok(state.(outstanding := Without(state.outstanding, node, effect)))
    case EffectUncertain(node, effect, _) =>
      Ok(state.(outstanding := Without(state.outstanding, node, effect),
                uncertain := state.uncertain + [(node, effect)]))
  }

  function FirstBroken(outcomes: seq<InvariantOutcome>): Option<Identifier> {
    if outcomes == [] then None
    else if !outcomes[0].held then Some(outcomes[0].invariantId)
    else FirstBroken(outcomes[1..])
  }

  function ApplyIteration(state: RunState, event: RunEvent, at: Time): Folding
    requires event.IterationStarted? || event.IterationFinished?
  {
    match event
    case IterationStarted(region, _, members) =>
      var progress := state.LoopOf(region);
      if progress.started > progress.finished then Err(IterationAlreadyOpen(region))
      else
        Ok(state.(
          loops := state.loops[region := progress.(started := SaturatingAdd(progress.started, 1, U32_MAX),
                                                   openedAt := Some(at))],
          finished := state.finished - members,
          running := state.running - members,
          failures := state.failures - members,
          control := map reading | reading in state.control && reading.0 !in members :: state.control[reading]))
    case IterationFinished(region, record) =>
      var progress := state.LoopOf(region);
      if progress.finished >= progress.started then Err(IterationWithoutStart(region))
      else
        var counted := progress.(finished := SaturatingAdd(progress.finished, 1, U32_MAX));
        var measured :=
          match record.progress
          case None => counted
          case Some(reading) =>
            counted.(stalled := if counted.lastProgress == Some(reading)
                                then SaturatingAdd(counted.stalled, 1, U32_MAX) else 0,
                     previousProgress := counted.lastProgress,
                     lastProgress := Some(reading));
        Ok(state.(
          loops := state.loops[region := measured.(failedInvariant := FirstBroken(record.invariants))],
          spent := state.spent.(
            wallMs := SaturatingAdd(state.spent.wallMs, record.spent.wallMs, U64_MAX),
            tokens := SaturatingAdd(state.spent.tokens, record.spent.tokens, U64_MAX),
            costMicroUnits := SaturatingAdd(state.spent.costMicroUnits, record.spent.costMicroUnits, U64_MAX))))
  }

  /** The effect of one event on a run that has not ended. */
  function ApplyEvent(state: RunState, event: RunEvent, at: Time): Folding {
    match event
    case Admission(_, _) => Err(AfterTerminal)
    case Started(_) => Ok(state.(status := Running, startedAt := Some(at)))
    case NodeStarted(node) =>
      if node in state.running then Err(StartedTwice(node))
      else Ok(state.(running := state.running[node := at], status := Running))
    case NodeFinished(node, outputs, control) =>
      if node !in state.running then Err(FinishedWithoutStarting(node))
      else
        Ok(state.(running := state.running - {node},
                  finished := state.finished[node := outputs],
                  control := state.control +
                    (map reading | reading in (set port | port in control :: (node, port)) :: control[reading.1])))
    case NodeFailed(node, failure, detail) =>
      Ok(state.(running := state.running - {node},
                failures := state.failures[node := state.FailuresOf(node) + [ReportedFailure(failure, detail)]]))
    case EffectClaimed(_, _, _, _) => ApplyEffect(state, event)
    case EffectFinalized(_, _, _, _) => ApplyEffect(state, event)
    case EffectAbandoned(_, _, _, _) => ApplyEffect(state, event)
    case EffectUncertain(_, _, _) => ApplyEffect(state, event)
    case IterationStarted(_, _, _) => ApplyIteration(state, event, at)
    case IterationFinished(_, _) => ApplyIteration(state, event, at)
    case LoopStopped(region, reason) =>
      Ok(state.(loops := state.loops[region := state.LoopOf(region).(stopped := Some(reason))]))
    case Suspended(wait) => Ok(state.(waitingOn := Some(wait), status := Waiting))
    case Resumed(_, _) =>
      if state.waitingOn.None? then Err(ResumedWithoutWait)
      else Ok(state.(waitingOn := None, status := Running))
    case CancellationRequested(who) => Ok(state.(cancelRequested := Some(who)))
    case Compensated(node, effect, _, _) => Ok(state.(compensated := state.compensated + {(node, effect)}))
    case Cancelled(_) => Ok(state.(status := Cancel))
    case Failed(reason) => Ok(state.(failure := Some(reason), status := Failure))
    case Completed(_) => Ok(state.(status := Complete))
  }

  /** The state once the event's place in the log is taken into account. */
  function Placed(state: RunState, recorded: RecordedEvent): RunState {
    state.(nextPosition := recorded.position + 1,
           epoch := if state.epoch < recorded.epoch then recorded.epoch else state.epoch)
  }

  function Apply(state: RunState, recorded: RecordedEvent): Folding {
    if recorded.position != state.nextPosition then Err(OutOfOrder)
    else if state.status.IsTerminal() then Err(AfterTerminal)
    else
      match ApplyEvent(state, recorded.event, recorded.at)
      case Err(error) => Err(error)
      case Ok(after) => Ok(Placed(after, recorded))
  }

  predicate Opens(log: seq<RecordedEvent>) {
    |log| > 0 && log[0].event.Admission? && log[0].position == 0
  }

  /** The state after every event of a log, or the first refusal. */
  function Fold(log: seq<RecordedEvent>): Folding
    decreases |log|
  {
    if |log| == 0 || !log[0].event.Admission? then Err(NotAdmitted)
    else if log[0].position != 0 then Err(OutOfOrder)
    else if |log| == 1 then Ok(Opening(log[0].epoch))
    else
      match Fold(log[..|log| - 1])
      case Err(error) => Err(error)
      case Ok(state) => Apply(state, log[|log| - 1])
  }

  /** The fold as the source runs it: one pass that stops at the first refusal. */
  method FoldLog(log: seq<RecordedEvent>) returns (folded: Folding)
    ensures folded == Fold(log)
  {
    if |log| == 0 || !log[0].event.Admission? {
      return Err(NotAdmitted);
    }
    if log[0].position != 0 {
      return Err(OutOfOrder);
    }
    var state := Opening(log[0].epoch);
    assert log[..1] == [log[0]];
    for i := 1 to |log|
      invariant Fold(log[..i]) == Ok(state)
    {
      assert log[..i + 1][..i] == log[..i] && log[..i + 1][i] == log[i];
      var next := Apply(state, log[i]);
      if next.Err? {
        FoldKeepsError(log, i + 1);
        return next;
      }
      state := next.value;
    }
    assert log[..|log|] == log;
    return Ok(state);
  }

  /** A refused prefix is refused with the same error however long the log grows. */
  lemma {:induction false} FoldKeepsError(log: seq<RecordedEvent>, i: nat)
    requires 1 <= i <= |log|
    requires Opens(log)
    requires Fold(log[..i]).Err?
    ensures Fold(log) == Fold(log[..i])
    decreases |log|
  {
    if i == |log| {
      assert log[..i] == log;
    } else {
      var shorter := log[..|log| - 1];
      assert shorter[..i] == log[..i];
      FoldKeepsError(shorter, i);
    }
  }
}
