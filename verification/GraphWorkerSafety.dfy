/**
 Safety of the fleet over every interleaving: an inductive invariant of `GraphWorkers.System`,
 kept by each step. Theorems read off it are in GraphWorkerTheorems.
 */
module GraphWorkerSafety {
  import opened Wrappers
  import opened Identifiers
  import opened Definition
  import opened RunEvents
  import opened RunStates
  import opened RunEffects
  import opened Waits
  import opened Stopping
  import opened DecisionCore
  import opened RunProtocol
  import opened Causes
  import opened DecisionSoundness
  import opened GraphWorkers
  import opened RunLogs

  function Core(s: System): RunState
    requires s.log != []
  {
    ScanLog(s.log).state
  }

  function Broken(s: System): Option<nat>
    requires s.log != []
  {
    ScanLog(s.log).broken
  }

  /** The only two events that ever break a log. */
  ghost predicate BreakingEvent(config: Config, state: RunState, event: RunEvent) {
    || (&& event.NodeStarted? && event.node in state.running
        && RouteNames(config.definition, state, event.node))
    || (event.Resumed? && state.status.IsTerminal() && state.waitingOn.Some?)
  }

  /** What may still be appended to a broken log: nothing about effects, loops or the run's end. */
  predicate Harmless(event: RunEvent) {
    event.NodeFinished? || event.NodeFailed? || event.CancellationRequested?
  }

  /** Positions count up without a gap and epochs never decrease. */
  ghost predicate Ordered(log: seq<RecordedEvent>, epoch: nat) {
    && (forall i :: 0 <= i < |log| ==> log[i].position == i && log[i].epoch <= epoch)
    && (forall i, j :: 0 <= i < j < |log| ==> log[i].epoch <= log[j].epoch)
  }

  lemma OrderedAppend(log: seq<RecordedEvent>, recorded: RecordedEvent)
    requires Ordered(log, recorded.epoch) && recorded.position == |log|
    ensures Ordered(log + [recorded], recorded.epoch)
  {
  }

  ghost predicate LogInv(config: Config, s: System) {
    && Opens(s.log)
    && Ordered(s.log, s.epoch)
    && Good(config, Core(s))
    && (Broken(s).None? ==> Core(s).nextPosition == |s.log|)
    && (Broken(s).Some? ==>
          && Broken(s).value < |s.log|
          && BreakingEvent(config, Core(s), s.log[Broken(s).value].event)
          && forall q :: Broken(s).value < q < |s.log| ==> Harmless(s.log[q].event))
  }

  /** What holds of a worker's phase whoever owns the run: its write-ahead evidence is in the log. */
  ghost predicate Evidence(config: Config, log: seq<RecordedEvent>, worker: Worker) {
    match worker.phase
    case Folded => Fold(worker.seen).Ok? && Good(config, Fold(worker.seen).value)
    case Appending(event) => !event.EffectAbandoned?
    case RunningNode(node, p) =>
      p < |log| && log[p].event == NodeStarted(node) && log[p].epoch == worker.epoch
    case OpeningEffect(attempt) => AttemptOk(config, attempt)
    case ClaimingEffect(attempt) => AttemptOk(config, attempt)
    case PerformingEffect(attempt, p) =>
      && AttemptOk(config, attempt)
      && p < |log| && log[p].event == attempt.Claimed() && log[p].epoch == worker.epoch
    case ResolvingEffect(attempt, result) => AttemptOk(config, attempt) && !result.Unknown?
    case ClosingEffect(attempt, result) => AttemptOk(config, attempt) && !result.Unknown?
    case _ => true
  }

  /** What holds of the current owner's phase, in terms of the state the whole log folds to. */
  ghost predicate PhaseOk(config: Config, state: RunState, phase: Phase) {
    match phase
    case Ready => true
    case Folded => true
    case Appending(event) => Permitted(config, state, event)
    case OpeningNode(node) => state.status.Running? && state.outstanding == [] && MayStartNode(config, state, node)
    case RunningNode(node, _) => !state.status.IsTerminal() && node in state.running && state.outstanding == []
    case ClosingNode(node, _) => !state.status.IsTerminal() && node in state.running && state.outstanding == []
    case OpeningEffect(attempt) =>
      attempt.node !in state.running && ClaimOk(config, state, attempt) && IsReady(config.definition, state, attempt.node)
    case ClaimingEffect(attempt) => attempt.node in state.running && ClaimOk(config, state, attempt)
    case PerformingEffect(attempt, _) => InDoubt(state, attempt.node, attempt.effect)
    case ResolvingEffect(attempt, _) => InDoubt(state, attempt.node, attempt.effect)
    case ClosingEffect(attempt, _) =>
      !state.status.IsTerminal() && attempt.node in state.running && state.outstanding == []
    case Compensating(compensation) => OwesFirst(config, state, compensation)
    case RecordingCompensation(compensation, _) => OwesFirst(config, state, compensation)
  }

  ghost predicate OwesFirst(config: Config, state: RunState, compensation: Compensation) {
    var owed := PendingCompensations(config.definition, state);
    !state.status.IsTerminal() && state.outstanding == [] && owed != [] && owed[0] == compensation
  }

  /** The phases a worker can be in once the log it owns no longer folds. */
  predicate WindingDown(phase: Phase) {
    || phase.Ready? || phase.RunningNode? || phase.ClosingNode?
    || (phase.Appending? && phase.event.CancellationRequested?)
  }

  ghost predicate OwnerInv(config: Config, s: System, worker: Worker)
    requires s.log != []
  {
    && (forall q :: |worker.seen| <= q < |s.log| ==> s.log[q].epoch == worker.epoch)
    && (Broken(s).None? ==> PhaseOk(config, Core(s), worker.phase))
    && (worker.phase.Folded? ==> worker.seen == s.log)
    && (Broken(s).Some? ==> WindingDown(worker.phase))
  }

  ghost predicate WorkerInv(config: Config, s: System, worker: Worker)
    requires s.log != []
  {
    && worker.epoch <= s.epoch
    && worker.seen <= s.log
    && Evidence(config, s.log, worker)
    && (worker.epoch == s.epoch ==> OwnerInv(config, s, worker))
  }

  ghost predicate DistinctEpochs(s: System) {
    forall v, w :: v in s.workers && w in s.workers && v != w ==> s.workers[v].epoch != s.workers[w].epoch
  }

  ghost predicate Inv(config: Config, s: System) {
    && s.log != []
    && LogInv(config, s)
    && DistinctEpochs(s)
    && forall w :: w in s.workers ==> WorkerInv(config, s, s.workers[w])
  }

  // ---- Decisions lead to phases that are in order. ----

  lemma FreshClaimIsOk(config: Config, state: RunState, node: Identifier, effect: Identifier)
    ensures var claim := AttemptFor(config, state, node, effect, 0, false);
            claim.Some? ==> AttemptOk(config, claim.value) && claim.value.node == node && claim.value.effect == effect
  {
  }

  /** A retry presents the key of the claim it recovers, and keeps a keyed effect's attempt. */
  lemma RecoveredClaimIsOk(config: Config, state: RunState, node: Identifier, effect: Identifier, attempt: nat)
    requires ClaimsOk(config, state) && InDoubt(state, node, effect)
    requires HasKey(config, node, effect) ==> attempt == state.outstanding[0].attempt
    ensures var claim := AttemptFor(config, state, node, effect, attempt, true);
            claim.Some? && AttemptOk(config, claim.value) && claim.value.node == node && claim.value.effect == effect
  {
    assert state.outstanding[0] in state.outstanding;
    var claim := FindClaim(state.outstanding, node, effect);
    assert AttemptOk(config, AsAttempt(claim.value));
    assert AttemptOk(config, AsAttempt(state.outstanding[0]));
  }

  /** Whatever the log holds, a retry presents the key the outstanding claim was made with. */
  lemma RetryPresentsTheClaimedKey(
    config: Config, state: RunState, node: Identifier, effect: Identifier, attempt: nat, claim: OutstandingEffect)
    requires FindClaim(state.outstanding, node, effect) == Some(claim)
    requires AttemptFor(config, state, node, effect, attempt, true).Some?
    ensures AttemptFor(config, state, node, effect, attempt, true) ==
      Some(EffectAttempt(node, effect, attempt, claim.key))
  {
  }

  lemma BeginEffectIsOk(config: Config, state: RunState, decision: Decision)
    requires Good(config, state) && Sound(config, state, decision)
    requires decision.PerformEffect? || decision.RetryClaimedEffect?
    ensures var claim := AttemptFor(config, state, decision.node, decision.effect, decision.attempt,
                                    decision.RetryClaimedEffect?);
            claim.Some? ==>
              && AttemptOk(config, claim.value)
              && PhaseOk(config, state, BeginEffect(state, claim.value))
  {
    hide Admitted, LoopsOk, HistoryOk, EndOk;
    if decision.PerformEffect? {
      FreshClaimIsOk(config, state, decision.node, decision.effect);
    } else {
      RecoveredClaimIsOk(config, state, decision.node, decision.effect, decision.attempt);
    }
  }

  lemma BeginAppendIsOk(config: Config, state: RunState, decision: Decision, now: Time, identity: Identifier)
    requires Good(config, state) && Sound(config, state, decision)
    requires !decision.PerformEffect? && !decision.RetryClaimedEffect? && !decision.StartNode? && !decision.Compensate?
    requires Begin(config, state, decision, now, identity).Some?
    ensures Begin(config, state, decision, now, identity).value.Appending?
    ensures Permitted(config, state, Begin(config, state, decision, now, identity).value.event)
  {
    hide Good, AttemptFor, BeginEffect, RecordIteration, FindClaim, Members, ReadFromTheLog;
    hide MayComplete, MayFail, InDoubt, PendingCompensations, MayStartIteration;
  }

  /** A sound decision starts the worker on a phase that is in order. */
  lemma BeginIsOk(
    config: Config, state: RunState, decision: Decision, now: Time, identity: Identifier,
    log: seq<RecordedEvent>, worker: Worker)
    requires Good(config, state) && Sound(config, state, decision)
    requires Begin(config, state, decision, now, identity).Some?
    ensures var phase := Begin(config, state, decision, now, identity).value;
            PhaseOk(config, state, phase) && !phase.Folded? && Evidence(config, log, worker.(phase := phase))
  {
    hide Good, Permitted, AttemptFor, RecordIteration, AttemptOk, FindClaim, Members, ClaimOk, Fold, InDoubt, MayFail;
    hide MayComplete, MayStartIteration;
    if decision.PerformEffect? || decision.RetryClaimedEffect? {
      BeginEffectIsOk(config, state, decision);
    } else if !decision.StartNode? && !decision.Compensate? {
      BeginAppendIsOk(config, state, decision, now, identity);
    }
  }

  // ---- A permitted append by the owner. ----

  lemma AppendToUnbroken(config: Config, s: System, recorded: RecordedEvent)
    requires LogInv(config, s) && Broken(s).None?
    requires recorded.position == |s.log| && recorded.epoch == s.epoch
    requires Permitted(config, Core(s), recorded.event)
    ensures var t := s.(log := s.log + [recorded]);
            && LogInv(config, t) && Broken(t).None?
            && Apply(Core(s), recorded).Ok? && Core(t) == Apply(Core(s), recorded).value
  {
    hide Good, Permitted, Ordered;
    OrderedAppend(s.log, recorded);
    ScanAppend(s.log, recorded);
    PermittedKeepsGood(config, Core(s), recorded);
  }

  lemma AppendBreaks(config: Config, s: System, recorded: RecordedEvent)
    requires LogInv(config, s) && Broken(s).None?
    requires recorded.position == |s.log| && recorded.epoch == s.epoch
    requires BreakingEvent(config, Core(s), recorded.event)
    ensures var t := s.(log := s.log + [recorded]);
            LogInv(config, t) && Broken(t) == Some(|s.log|) && Core(t) == Core(s)
  {
    hide Good, Permitted, Ordered;
    OrderedAppend(s.log, recorded);
    ScanAppend(s.log, recorded);
  }

  lemma AppendToBroken(config: Config, s: System, recorded: RecordedEvent)
    requires LogInv(config, s) && Broken(s).Some?
    requires recorded.position == |s.log| && recorded.epoch == s.epoch
    requires Harmless(recorded.event)
    ensures var t := s.(log := s.log + [recorded]);
            LogInv(config, t) && Broken(t) == Broken(s) && Core(t) == Core(s)
  {
    hide Good, Permitted, Ordered;
    OrderedAppend(s.log, recorded);
    ScanAppend(s.log, recorded);
  }

  lemma OwedEffectFails(config: Config, state: RunState, compensation: Compensation)
    requires OwesFirst(config, state, compensation)
    ensures FailsFor(config.definition, state, EffectDoubt(compensation.node, compensation.effect))
  {
  }

  /** Unless it is a repair of a running node, the event a phase appends is permitted. */
  lemma PendingIsPermitted(config: Config, state: RunState, phase: Phase)
    requires Good(config, state) && PhaseOk(config, state, phase) && PendingEvent(phase).Some?
    requires phase.OpeningNode? ==> phase.node !in state.running
    ensures Permitted(config, state, PendingEvent(phase).value)
  {
    if !phase.Appending? {
      if phase.RecordingCompensation? {
        OwedEffectFails(config, state, phase.compensation);
      }
      ScriptedIsPermitted(config, state, phase);
    }
    hide Permitted, Good;
  }

  lemma ScriptedIsPermitted(config: Config, state: RunState, phase: Phase)
    requires Good(config, state) && PhaseOk(config, state, phase) && PendingEvent(phase).Some? && !phase.Appending?
    requires phase.OpeningNode? ==> phase.node !in state.running
    requires phase.RecordingCompensation? ==>
      FailsFor(config.definition, state, EffectDoubt(phase.compensation.node, phase.compensation.effect))
    ensures Permitted(config, state, PendingEvent(phase).value)
  {
    hide Admitted, LoopsOk, HistoryOk, EndOk, RouteNames, RouteEscalates, FailsFor, StopsFor, IsReady, AttemptOk;
    hide MayComplete, ReadFromTheLog, ResetsItsRegion, MayStartIteration, PendingCompensations;
  }

  /** The state after the append is the one the next phase expects. */
  lemma NextPhaseIsOk(config: Config, state: RunState, phase: Phase, at: Time, position: nat)
    requires Good(config, state) && PhaseOk(config, state, phase) && PendingEvent(phase).Some?
    requires phase.OpeningNode? ==> phase.node !in state.running
    requires ApplyEvent(state, PendingEvent(phase).value, at).Ok?
    ensures PhaseOk(config, ApplyEvent(state, PendingEvent(phase).value, at).value, PhaseAfterAppend(phase, position))
  {
    hide Good, Permitted;
    if phase.ResolvingEffect? {
      ResolvedPhaseIsOk(config, state, phase, at);
    } else if phase.OpeningNode? || phase.OpeningEffect? || phase.ClaimingEffect? {
      OpenedPhaseIsOk(config, state, phase, at, position);
    } else {
      assert PhaseAfterAppend(phase, position).Ready?;
    }
  }

  lemma OpenedPhaseIsOk(config: Config, state: RunState, phase: Phase, at: Time, position: nat)
    requires Good(config, state) && PhaseOk(config, state, phase)
    requires phase.OpeningNode? || phase.OpeningEffect? || phase.ClaimingEffect?
    requires phase.OpeningNode? ==> phase.node !in state.running
    ensures ApplyEvent(state, PendingEvent(phase).value, at).Ok?
    ensures PhaseOk(config, ApplyEvent(state, PendingEvent(phase).value, at).value, PhaseAfterAppend(phase, position))
  {
    hide Admitted, LoopsOk, HistoryOk, EndOk, Permitted;
  }

  lemma ResolvedPhaseIsOk(config: Config, state: RunState, phase: Phase, at: Time)
    requires Good(config, state) && PhaseOk(config, state, phase)
    requires phase.ResolvingEffect? && PendingEvent(phase).Some?
    requires ApplyEvent(state, PendingEvent(phase).value, at).Ok?
    ensures PhaseOk(config, ApplyEvent(state, PendingEvent(phase).value, at).value,
                    ClosingEffect(phase.attempt, phase.result))
  {
    hide Admitted, LoopsOk, HistoryOk, EndOk, Permitted, Without;
    ResolutionEmptiesDoubt(config, state, phase.attempt.node, phase.attempt.effect);
  }

  lemma PlaceKeepsPhase(config: Config, state: RunState, recorded: RecordedEvent, phase: Phase)
    requires PhaseOk(config, state, phase) && !phase.Appending? && !phase.OpeningNode? && !phase.OpeningEffect?
    requires !phase.Compensating? && !phase.RecordingCompensation?
    ensures PhaseOk(config, Placed(state, recorded), phase)
  {
  }

  lemma OwnerAppends(config: Config, s: System, w: WorkerId, at: Time)
    requires Inv(config, s) && w in s.workers && s.workers[w].epoch == s.epoch
    requires PendingEvent(s.workers[w].phase).Some?
    ensures var t := DoAppend(s, w, at); LogInv(config, t) && OwnerInv(config, t, t.workers[w])
  {
    var worker := s.workers[w];
    var event := PendingEvent(worker.phase).value;
    var recorded := RecordedEvent(|s.log|, s.epoch, at, event);
    var t := DoAppend(s, w, at);
    var grown := s.(log := s.log + [recorded]);
    assert t.log == grown.log && t.epoch == grown.epoch;
    assert WorkerInv(config, s, worker);
    hide Good, Permitted, PhaseOk, Apply, ApplyEvent;
    if Broken(s).Some? {
      AppendToBroken(config, s, recorded);
    } else if worker.phase.OpeningNode? && worker.phase.node in Core(s).running {
      OpeningBreaks(config, Core(s), worker.phase);
      AppendBreaks(config, s, recorded);
    } else {
      PendingIsPermitted(config, Core(s), worker.phase);
      AppendToUnbroken(config, s, recorded);
      OwnerPhaseMoves(config, Core(s), recorded, worker.phase, |s.log|);
    }
    PhasesOfAppends(worker.phase, |s.log|);
  }

  lemma PhasesOfAppends(phase: Phase, position: nat)
    requires PendingEvent(phase).Some?
    ensures !PhaseAfterAppend(phase, position).Folded?
    ensures WindingDown(phase) || phase.OpeningNode? ==> WindingDown(PhaseAfterAppend(phase, position))
  {
  }

  lemma OpeningBreaks(config: Config, state: RunState, phase: Phase)
    requires PhaseOk(config, state, phase) && phase.OpeningNode? && phase.node in state.running
    ensures BreakingEvent(config, state, PendingEvent(phase).value)
  {
  }

  lemma OwnerPhaseMoves(config: Config, state: RunState, recorded: RecordedEvent, phase: Phase, position: nat)
    requires Good(config, state) && PhaseOk(config, state, phase)
    requires PendingEvent(phase) == Some(recorded.event)
    requires phase.OpeningNode? ==> phase.node !in state.running
    requires Apply(state, recorded).Ok?
    ensures PhaseOk(config, Apply(state, recorded).value, PhaseAfterAppend(phase, position))
  {
    hide Good, PhaseOk, ApplyEvent;
    NextPhaseIsOk(config, state, phase, recorded.at, position);
    PlaceKeepsPhase(config, ApplyEvent(state, recorded.event, recorded.at).value, recorded,
                    PhaseAfterAppend(phase, position));
  }

  // ---- Each step keeps the invariant. ----

  /** Workers that do not own the run are untouched by a longer log or a later epoch. */
  lemma BystanderKeepsInv(config: Config, s: System, t: System, worker: Worker)
    requires s.log != [] && WorkerInv(config, s, worker)
    requires s.log <= t.log && s.epoch <= t.epoch && worker.epoch != t.epoch
    ensures WorkerInv(config, t, worker)
  {
  }

  /** The phases a fresh lease starts in: about to fold, or about to ask for a cancellation. */
  predicate FreshPhase(phase: Phase) {
    phase.Ready? || (phase.Appending? && phase.event.CancellationRequested?)
  }

  lemma FreshPhaseIsOk(config: Config, state: RunState, phase: Phase, log: seq<RecordedEvent>, worker: Worker)
    requires FreshPhase(phase) && worker.phase == phase
    ensures !state.status.IsTerminal() ==> PhaseOk(config, state, phase)
    ensures Evidence(config, log, worker) && WindingDown(phase) && !phase.Folded?
  {
    hide Good, Fold, AttemptOk, ClaimOk, RouteNames, OwesFirst, InDoubt;
  }

  lemma LeasedWorkerIsOk(config: Config, s: System, t: System, worker: Worker)
    requires LogInv(config, s) && t.log == s.log && !ProjectedStatus(s.log).IsTerminal()
    requires worker.epoch == t.epoch && worker.seen == s.log && FreshPhase(worker.phase)
    ensures WorkerInv(config, t, worker)
  {
    ScanIsFold(s.log);
    if Broken(s).None? {
      ProjectionAgrees(s.log);
    }
    FreshPhaseIsOk(config, Core(s), worker.phase, s.log, worker);
    hide Good, PhaseOk, Evidence, Fold, ScanLog, BreakingEvent, FreshPhase, ProjectedStatus, WindingDown;
  }

  lemma LeaseKeepsInv(config: Config, s: System, w: WorkerId, phase: Phase, now: Time)
    requires Inv(config, s)
    requires FreshPhase(phase)
    ensures Inv(config, DoLease(s, w, phase, now))
  {
    var t := DoLease(s, w, phase, now);
    if t != s {
      hide Good, ProjectedStatus, OwnerInv, Evidence, ScanLog;
      forall v | v in t.workers
        ensures WorkerInv(config, t, t.workers[v])
        ensures v != w ==> t.workers[v].epoch < t.epoch
      {
        if v == w {
          LeasedWorkerIsOk(config, s, t, t.workers[w]);
        } else {
          assert WorkerInv(config, s, s.workers[v]);
          BystanderKeepsInv(config, s, t, t.workers[v]);
        }
      }
    }
  }

  lemma DropKeepsInv(config: Config, s: System, w: WorkerId)
    requires Inv(config, s)
    ensures Inv(config, Dropped(s, w))
  {
    hide Good, WorkerInv;
    var t := Dropped(s, w);
    forall v | v in t.workers
      ensures WorkerInv(config, t, t.workers[v])
    {
      SameLogKeepsInv(config, s, t, s.workers[v]);
    }
  }

  lemma SameLogKeepsInv(config: Config, s: System, t: System, worker: Worker)
    requires s.log != [] && WorkerInv(config, s, worker)
    requires s.log == t.log && s.epoch == t.epoch
    ensures WorkerInv(config, t, worker)
  {
  }

  /** A step that only moves one worker's phase keeps the invariant when the new phase is in order. */
  lemma MoveKeepsInv(config: Config, s: System, t: System, w: WorkerId, moved: Worker)
    requires Inv(config, s) && w in s.workers
    requires t.log == s.log && t.epoch == s.epoch && t.workers == s.workers[w := moved]
    requires moved.epoch == s.workers[w].epoch && WorkerInv(config, s, moved)
    ensures Inv(config, t)
  {
    hide Good, WorkerInv;
    forall v | v in t.workers
      ensures WorkerInv(config, t, t.workers[v])
    {
      SameLogKeepsInv(config, s, t, t.workers[v]);
    }
  }

  lemma FoldKeepsInv(config: Config, s: System, w: WorkerId, now: Time)
    requires Inv(config, s)
    ensures Inv(config, DoFold(s, w, now))
  {
    hide Good;
    if w in s.workers && s.workers[w].phase.Ready? {
      if Fold(s.log).Err? {
        DropKeepsInv(config, s, w);
      } else {
        var moved := s.workers[w].(seen := s.log, now := now, phase := Folded);
        assert WorkerInv(config, s, s.workers[w]);
        ScanIsFold(s.log);
        MoveKeepsInv(config, s, DoFold(s, w, now), w, moved);
      }
    }
  }

  /** A worker that owns the run decides from exactly the state the log folds to. */
  lemma OwnerSeesCore(config: Config, s: System, worker: Worker)
    requires LogInv(config, s) && WorkerInv(config, s, worker)
    requires worker.phase.Folded? && worker.epoch == s.epoch
    ensures Fold(worker.seen).Ok? && Fold(worker.seen).value == Core(s) && Broken(s).None?
  {
    hide Good;
    ScanIsFold(s.log);
  }

  lemma DecideKeepsInv(config: Config, s: System, w: WorkerId, identity: Identifier)
    requires Inv(config, s)
    ensures Inv(config, DoDecide(config, s, w, identity))
  {
    if w in s.workers && s.workers[w].phase.Folded? {
      hide Good, Decide, Begin, Sound, PhaseOk, Fold;
      var worker := s.workers[w];
      assert WorkerInv(config, s, worker);
      var state := Fold(worker.seen).value;
      var decision := Decide(config.definition, state, worker.now);
      DecisionIsSound(config, state, worker.now);
      var begun := Begin(config, state, decision, worker.now, identity);
      if begun.None? {
        DropKeepsInv(config, s, w);
      } else {
        BeginIsOk(config, state, decision, worker.now, identity, s.log, worker);
        var moved := worker.(phase := begun.value);
        if worker.epoch == s.epoch {
          OwnerSeesCore(config, s, worker);
        }
        MoveKeepsInv(config, s, DoDecide(config, s, w, identity), w, moved);
      }
    }
  }

  /** An accepted append leaves every other worker a bystander. */
  lemma RecordedKeepsInv(config: Config, s: System, t: System, w: WorkerId)
    requires Inv(config, s) && w in s.workers && s.workers[w].epoch == s.epoch
    requires t.log != [] && s.log <= t.log && t.epoch == s.epoch && t.workers.Keys == s.workers.Keys
    requires forall v :: v in s.workers && v != w ==> t.workers[v] == s.workers[v]
    requires t.workers[w].epoch == s.epoch && t.workers[w].seen == s.workers[w].seen
    requires LogInv(config, t) && OwnerInv(config, t, t.workers[w]) && Evidence(config, t.log, t.workers[w])
    ensures Inv(config, t)
  {
    hide LogInv, OwnerInv, Evidence;
    forall v | v in t.workers
      ensures WorkerInv(config, t, t.workers[v])
    {
      assert WorkerInv(config, s, s.workers[v]);
      if v != w {
        BystanderKeepsInv(config, s, t, t.workers[v]);
      }
    }
  }

  lemma AppendLeavesEvidence(config: Config, s: System, w: WorkerId, at: Time)
    requires w in s.workers && PendingEvent(s.workers[w].phase).Some? && s.workers[w].epoch == s.epoch
    requires Evidence(config, s.log, s.workers[w])
    ensures var t := DoAppend(s, w, at); Evidence(config, t.log, t.workers[w])
  {
    hide AttemptOk, Good;
  }

  lemma AppendKeepsInv(config: Config, s: System, w: WorkerId, at: Time)
    requires Inv(config, s)
    ensures Inv(config, DoAppend(s, w, at))
  {
    hide LogInv, OwnerInv, Evidence, PendingEvent;
    if w in s.workers && PendingEvent(s.workers[w].phase).Some? {
      if s.workers[w].epoch != s.epoch {
        DropKeepsInv(config, s, w);
      } else {
        assert WorkerInv(config, s, s.workers[w]);
        OwnerAppends(config, s, w, at);
        AppendLeavesEvidence(config, s, w, at);
        RecordedKeepsInv(config, s, DoAppend(s, w, at), w);
      }
    }
  }

  /** Answering a signal either resumes the run or, on a run that has ended, breaks its log. */
  lemma OwnerResumes(config: Config, s: System, w: WorkerId, signal: Signal)
    requires Inv(config, s) && w in s.workers && s.workers[w].epoch == s.epoch && s.workers[w].phase.Folded?
    requires Resume(Fold(s.workers[w].seen).value.waitingOn, signal, s.workers[w].now).Ok?
    ensures var t := DoSignal(s, w, signal);
            LogInv(config, t) && OwnerInv(config, t, t.workers[w]) && t.workers[w].phase.Ready?
  {
    hide Good, PhaseOk, Ordered, Resume;
    var worker := s.workers[w];
    assert WorkerInv(config, s, worker);
    OwnerSeesCore(config, s, worker);
    var event := Resume(Core(s).waitingOn, signal, worker.now).value;
    var recorded := RecordedEvent(|s.log|, s.epoch, worker.now, event);
    var t := DoSignal(s, w, signal);
    assert t.log == s.log + [recorded];
    ReadyIsOk(config, Core(t));
    if Core(s).status.IsTerminal() {
      AppendBreaks(config, s, recorded);
    } else {
      AppendToUnbroken(config, s, recorded);
    }
  }

  lemma ReadyIsOk(config: Config, state: RunState)
    ensures PhaseOk(config, state, Ready)
  {
  }

  lemma SignalKeepsInv(config: Config, s: System, w: WorkerId, signal: Signal)
    requires Inv(config, s)
    ensures Inv(config, DoSignal(s, w, signal))
  {
    hide LogInv, OwnerInv, Resume;
    if DoSignal(s, w, signal) != s {
      OwnerResumes(config, s, w, signal);
      RecordedKeepsInv(config, s, DoSignal(s, w, signal), w);
    }
  }

  /** Where an executor call may leave the worker that made it. */
  predicate ReturnsTo(phase: Phase, next: Phase) {
    match phase
    case RunningNode(node, _) => next.ClosingNode? && next.node == node
    case PerformingEffect(attempt, _) =>
      next.Ready? || (next.ResolvingEffect? && next.attempt == attempt && !next.result.Unknown?)
    case Compensating(compensation) => next.RecordingCompensation? && next.compensation == compensation
    case _ => false
  }

  lemma ReturnIsOk(config: Config, s: System, worker: Worker, next: Phase)
    requires s.log != [] && WorkerInv(config, s, worker) && ReturnsTo(worker.phase, next)
    ensures WorkerInv(config, s, worker.(phase := next))
  {
    hide Good, AttemptOk, InDoubt, OwesFirst, ScanLog, Fold;
  }

  lemma CallKeepsInv(config: Config, s: System, t: System, w: WorkerId, next: Phase)
    requires Inv(config, s) && w in s.workers && ReturnsTo(s.workers[w].phase, next)
    requires t.log == s.log && t.epoch == s.epoch
    requires t.workers == s.workers[w := s.workers[w].(phase := next)]
    ensures Inv(config, t)
  {
    hide LogInv, WorkerInv;
    ReturnIsOk(config, s, s.workers[w], next);
    MoveKeepsInv(config, s, t, w, s.workers[w].(phase := next));
  }

  lemma StepKeepsInv(config: Config, s: System, step: Step)
    requires Inv(config, s)
    ensures Inv(config, Do(config, s, step))
  {
    hide Inv, DoLease, DoFold, DoSignal, DoDecide, DoAppend, Dropped;
    match step
    case Lease(w) => LeaseKeepsInv(config, s, w, Ready, 0);
    case LeaseToCancel(w, who, now) => LeaseKeepsInv(config, s, w, Appending(CancellationRequested(who)), now);
    case Stop(w) => DropKeepsInv(config, s, w);
    case FoldTheLog(w, now) => FoldKeepsInv(config, s, w, now);
    case AnswerSignal(w, signal) => SignalKeepsInv(config, s, w, signal);
    case DecideNow(w, identity) => DecideKeepsInv(config, s, w, identity);
    case Append(w, at) => AppendKeepsInv(config, s, w, StampFor(s, w, at));
    case RunNode(w, ran) =>
      if DoNode(s, w, ran) != s { CallKeepsInv(config, s, DoNode(s, w, ran), w, DoNode(s, w, ran).workers[w].phase); }
    case PerformIt(w, result) =>
      if DoEffect(s, w, result) != s { CallKeepsInv(config, s, DoEffect(s, w, result), w, DoEffect(s, w, result).workers[w].phase); }
    case CompensateIt(w, result) =>
      if DoCompensate(s, w, result) != s { CallKeepsInv(config, s, DoCompensate(s, w, result), w, DoCompensate(s, w, result).workers[w].phase); }
  }

  lemma CreatedIsOk(config: Config, admission: RunEvent, at: Time)
    requires admission.Admission?
    ensures Inv(config, Created(admission, at))
  {
  }

  /** The invariant holds after every interleaving of any number of workers. */
  lemma {:induction false} RunKeepsInv(config: Config, s: System, steps: seq<Step>)
    requires Inv(config, s)
    ensures Inv(config, Run(config, s, steps))
  {
    if steps != [] {
      hide Inv, Do;
      RunKeepsInv(config, s, steps[..|steps| - 1]);
      StepKeepsInv(config, Run(config, s, steps[..|steps| - 1]), steps[|steps| - 1]);
    }
  }
}
