/**
 What a run's log says, whatever fleet of workers wrote it: every event was permitted in the state
 the events before it fold to, and the endings, finalizations and loop counts that follow from it.
 */
module RunOutcomes {
  import opened Wrappers
  import opened Identifiers
  import opened Definition
  import opened RunEvents
  import opened RunStates
  import opened Waits
  import opened Stopping
  import opened DecisionCore
  import opened RunProtocol
  import opened Causes
  import opened DecisionTable
  import opened GraphWorkers
  import opened RunLogs
  import opened GraphWorkerSafety
  import opened GraphWorkerTheorems
  import opened UnrepeatableEffects

  /** Every event that folds was permitted by the run's law when it was appended. */
  ghost predicate Lawful(config: Config, log: seq<RecordedEvent>)
  {
    forall p :: 1 <= p < |log| && Fold(log[..p + 1]).Ok? ==>
      Fold(log[..p]).Ok? && Permitted(config, Fold(log[..p]).value, log[p].event)
  }

  lemma LawfulAppend(config: Config, log: seq<RecordedEvent>, recorded: RecordedEvent)
    requires log != [] && Lawful(config, log)
    requires Fold(log + [recorded]).Ok? ==>
      Fold(log).Ok? && Permitted(config, Fold(log).value, recorded.event)
    ensures Lawful(config, log + [recorded])
  {
    hide Permitted, Fold;
    var longer := log + [recorded];
    forall p | 1 <= p < |longer| && Fold(longer[..p + 1]).Ok?
      ensures Fold(longer[..p]).Ok? && Permitted(config, Fold(longer[..p]).value, longer[p].event)
    {
      assert longer[..p] == log[..p];
      if p < |log| {
        assert longer[..p + 1] == log[..p + 1];
      } else {
        assert longer[..p + 1] == longer && log[..p] == log;
      }
    }
  }

  lemma LawfulPrefix(config: Config, log: seq<RecordedEvent>)
    requires |log| > 1 && Lawful(config, log) && Fold(log).Ok?
    ensures var before := log[..|log| - 1];
            && Lawful(config, before) && Fold(before).Ok?
            && Permitted(config, Fold(before).value, log[|log| - 1].event)
  {
    hide Permitted, Fold;
    var before := log[..|log| - 1];
    assert log[..|log| - 1 + 1] == log;
    forall p | 1 <= p < |before| && Fold(before[..p + 1]).Ok?
      ensures Fold(before[..p]).Ok? && Permitted(config, Fold(before[..p]).value, before[p].event)
    {
      assert before[..p] == log[..p] && before[..p + 1] == log[..p + 1];
    }
  }

  lemma AppendIsPermitted(config: Config, s: System, step: Step)
    requires Inv(config, s) && Do(config, s, step).log != s.log
    ensures var t := Do(config, s, step);
            && |t.log| == |s.log| + 1 && t.log[..|s.log|] == s.log
            && Opens(s.log) && Opens(t.log)
            && (Fold(t.log).Ok? ==> Fold(s.log).Ok? && Permitted(config, Fold(s.log).value, t.log[|s.log|].event))
  {
    var t := Do(config, s, step);
    OnlyOwnersAppend(config, s, step);
    hide Good, WorkerInv, Permitted, Fold, Apply, Begin, Decide, PendingEvent, Resume, PhaseAfterAppend;
    ScanAppend(s.log, t.log[|s.log|]);
    ScanIsFold(s.log);
    ScanIsFold(t.log);
    hide Inv;
    if step.Append? {
      PendingOfOwner(config, s, step.worker, StampFor(s, step.worker, step.at));
    } else {
      SignalAppends(config, s, step.worker, step.signal);
    }
  }

  lemma StepKeepsLaw(config: Config, s: System, step: Step)
    requires Inv(config, s) && Lawful(config, s.log)
    ensures Lawful(config, Do(config, s, step).log)
  {
    var t := Do(config, s, step);
    hide Inv, Lawful, Do, Permitted, Fold;
    if t.log != s.log {
      AppendIsPermitted(config, s, step);
      assert t.log == s.log + [t.log[|s.log|]];
      LawfulAppend(config, s.log, t.log[|s.log|]);
    }
  }

  lemma {:induction false} RunKeepsLaw(config: Config, s: System, steps: seq<Step>)
    requires Inv(config, s) && Lawful(config, s.log)
    ensures Lawful(config, Run(config, s, steps).log)
  {
    hide Inv, Lawful, Do;
    if steps != [] {
      RunKeepsLaw(config, s, steps[..|steps| - 1]);
      RunKeepsInv(config, s, steps[..|steps| - 1]);
      StepKeepsLaw(config, Run(config, s, steps[..|steps| - 1]), steps[|steps| - 1]);
    }
  }

  /** The law of the log, over every interleaving. */
  lemma LogObeysTheLaw(config: Config, admission: RunEvent, at: Time, steps: seq<Step>)
    requires admission.Admission?
    ensures Lawful(config, After(config, admission, at, steps).log)
  {
    hide Inv, Do, Run, Permitted, Fold;
    CreatedIsOk(config, admission, at);
    RunKeepsLaw(config, Created(admission, at), steps);
  }

  // ---- Finalizations. ----

  /** The effects a log finalizes, in order. */
  function Finalizations(log: seq<RecordedEvent>): seq<EffectRef> {
    if log == [] then []
    else
      var event := log[|log| - 1].event;
      Finalizations(log[..|log| - 1])
      + (if event.EffectFinalized? then [(event.node, event.effect)] else [])
  }

  lemma ApplyTracksFinalizations(state: RunState, event: RunEvent, at: Time)
    requires ApplyEvent(state, event, at).Ok?
    ensures ApplyEvent(state, event, at).value.finalizedOrder ==
      state.finalizedOrder + (if event.EffectFinalized? then [(event.node, event.effect)] else [])
  {
  }

  lemma {:induction false} FoldTracksFinalizations(log: seq<RecordedEvent>)
    requires Fold(log).Ok?
    ensures Fold(log).value.finalizedOrder == Finalizations(log)
  {
    if |log| > 1 {
      FoldTracksFinalizations(log[..|log| - 1]);
      hide ApplyEvent;
      var last := log[|log| - 1];
      ApplyTracksFinalizations(Fold(log[..|log| - 1]).value, last.event, last.at);
    } else {
      assert log[..0] == [];
    }
  }

  /** Every run finalizes an effect at most once, and its log folds to exactly those finalizations. */
  lemma EffectsAreFinalizedOnce(config: Config, admission: RunEvent, at: Time, steps: seq<Step>)
    requires admission.Admission? && Fold(After(config, admission, at, steps).log).Ok?
    ensures var log := After(config, admission, at, steps).log;
            && Fold(log).value.finalizedOrder == Finalizations(log)
            && forall i, j :: 0 <= i < j < |Finalizations(log)| ==> Finalizations(log)[i] != Finalizations(log)[j]
  {
    hide WorkerInv, Run, Fold, ScanLog, EndOk, ClaimsOk, LoopsOk;
    var log := After(config, admission, at, steps).log;
    Reached(config, admission, at, steps);
    ScanIsFold(log);
    FoldTracksFinalizations(log);
  }

  // ---- Loop bounds. ----

  /** How often a log opens an iteration of one loop. */
  function IterationsStarted(log: seq<RecordedEvent>, region: Identifier): nat {
    if log == [] then 0
    else
      var event := log[|log| - 1].event;
      IterationsStarted(log[..|log| - 1], region)
      + (if event.IterationStarted? && event.region == region then 1 else 0)
  }

  lemma ApplyTracksIterations(state: RunState, event: RunEvent, at: Time, region: Identifier)
    requires ApplyEvent(state, event, at).Ok?
    ensures ApplyEvent(state, event, at).value.LoopOf(region).started ==
      SaturatingAdd(state.LoopOf(region).started,
                    if event.IterationStarted? && event.region == region then 1 else 0, U32_MAX)
      || state.LoopOf(region).started > U32_MAX
  {
  }

  /** Up to the declared bound, the fold's counter is the number of iterations in the log. */
  lemma {:induction false} FoldCountsIterations(
    config: Config, log: seq<RecordedEvent>, region: Region)
    requires Fold(log).Ok? && Lawful(config, log) && Admitted(config.definition)
    requires region in config.definition.graph.regions && region.kind.Loop?
    requires MaxStarts(region.kind.spec) <= U32_MAX
    ensures Fold(log).value.LoopOf(region.id).started == IterationsStarted(log, region.id)
    ensures IterationsStarted(log, region.id) <= MaxStarts(region.kind.spec)
  {
    hide Admitted;
    if |log| > 1 {
      var before, last := log[..|log| - 1], log[|log| - 1];
      hide ApplyEvent, Permitted, Lawful;
      LawfulPrefix(config, log);
      FoldCountsIterations(config, before, region);
      PermittedStart(config, Fold(before).value, last.event, region);
      ApplyTracksIterations(Fold(before).value, last.event, last.at, region.id);
    } else {
      assert log[..0] == [];
    }
  }

  lemma PermittedStart(config: Config, state: RunState, event: RunEvent, region: Region)
    requires Permitted(config, state, event) && Admitted(config.definition)
    requires region in config.definition.graph.regions && region.kind.Loop?
    ensures event.IterationStarted? && event.region == region.id ==>
      state.LoopOf(region.id).started < MaxStarts(region.kind.spec)
  {
    hide Admitted;
  }

  /** No restart, takeover or crash lets a loop go round more often than it declared. */
  lemma LoopsAreBounded(config: Config, admission: RunEvent, at: Time, steps: seq<Step>, region: Region)
    requires admission.Admission? && Fold(After(config, admission, at, steps).log).Ok?
    requires Admitted(config.definition)
    requires region in config.definition.graph.regions && region.kind.Loop?
    requires region.kind.spec.budget.maxIterations <= U32_MAX
    ensures IterationsStarted(After(config, admission, at, steps).log, region.id) <= region.kind.spec.budget.maxIterations
  {
    LogObeysTheLaw(config, admission, at, steps);
    hide Lawful, Run, Fold;
    FoldCountsIterations(config, After(config, admission, at, steps).log, region);
  }

  lemma FoldsUpTo(log: seq<RecordedEvent>, p: nat)
    requires Fold(log).Ok? && 1 <= p <= |log|
    ensures Fold(log[..p]).Ok?
  {
    if Fold(log[..p]).Err? {
      FoldKeepsError(log, p);
    }
  }

  lemma {:induction false} LawfulUpTo(config: Config, log: seq<RecordedEvent>, p: nat)
    requires Lawful(config, log) && Fold(log).Ok? && 1 <= p <= |log|
    ensures Lawful(config, log[..p])
    decreases |log|
  {
    hide Lawful, Fold;
    if p == |log| {
      assert log[..p] == log;
    } else {
      LawfulPrefix(config, log);
      LawfulUpTo(config, log[..|log| - 1], p);
      assert log[..|log| - 1][..p] == log[..p];
    }
  }

  lemma NumberedByCount(config: Config, state: RunState, event: RunEvent, region: Identifier)
    requires Permitted(config, state, event)
    ensures event.IterationStarted? ==>
      event.index == state.LoopOf(event.region).finished && state.LoopOf(event.region).started <= event.index
    ensures event.IterationFinished? ==>
      event.record.index == state.LoopOf(event.region).finished && state.LoopOf(event.region).started > event.record.index
  {
    hide Admitted;
  }

  /** Iterations of a loop are numbered 0, 1, 2, ... in the log, each closed before the next opens. */
  lemma IterationsAreNumbered(config: Config, admission: RunEvent, at: Time, steps: seq<Step>, region: Region, p: nat)
    requires admission.Admission? && Admitted(config.definition)
    requires region in config.definition.graph.regions && region.kind.Loop?
    requires region.kind.spec.budget.maxIterations <= U32_MAX
    requires var log := After(config, admission, at, steps).log; Fold(log).Ok? && 1 <= p < |log|
    ensures var log := After(config, admission, at, steps).log;
            var before, event := IterationsStarted(log[..p], region.id), log[p].event;
            && (event.IterationStarted? && event.region == region.id ==> event.index == before)
            && (event.IterationFinished? && event.region == region.id ==> event.record.index == before - 1)
  {
    LogObeysTheLaw(config, admission, at, steps);
    var log := After(config, admission, at, steps).log;
    hide Run, Fold, Lawful, Admitted;
    FoldsUpTo(log, p);
    FoldsUpTo(log, p + 1);
    LawfulUpTo(config, log, p);
    FoldCountsIterations(config, log[..p], region);
    OneOpenAtATime(config, log[..p], region.id);
    LawfulAt(config, log, p);
    NumberedByCount(config, Fold(log[..p]).value, log[p].event, region.id);
  }

  lemma LawfulAt(config: Config, log: seq<RecordedEvent>, p: nat)
    requires Lawful(config, log) && 1 <= p < |log| && Fold(log[..p + 1]).Ok?
    ensures Fold(log[..p]).Ok? && Permitted(config, Fold(log[..p]).value, log[p].event)
  {
    hide Fold, Permitted;
  }

  lemma {:induction false} OneOpenAtATime(config: Config, log: seq<RecordedEvent>, region: Identifier)
    requires Fold(log).Ok?
    ensures var progress := Fold(log).value.LoopOf(region); progress.finished <= progress.started <= progress.finished + 1 && progress.started <= U32_MAX
  {
    if |log| > 1 {
      OneOpenAtATime(config, log[..|log| - 1], region);
      hide ApplyEvent;
      ApplyKeepsOneOpen(Fold(log[..|log| - 1]).value, log[|log| - 1].event, log[|log| - 1].at, region);
    }
  }

  lemma ApplyKeepsOneOpen(state: RunState, event: RunEvent, at: Time, region: Identifier)
    requires ApplyEvent(state, event, at).Ok?
    requires var progress := state.LoopOf(region); progress.finished <= progress.started <= progress.finished + 1 && progress.started <= U32_MAX
    ensures var progress := ApplyEvent(state, event, at).value.LoopOf(region);
            progress.finished <= progress.started <= progress.finished + 1 && progress.started <= U32_MAX
  {
  }

  // ---- Order. ----

  /**
   A node starts only once everything it depends on has finished, inside a loop or after the loop has
   stopped, and while it is idle itself; the one exception is a node a failure's route names.
   */
  lemma NodesStartInOrder(config: Config, admission: RunEvent, at: Time, steps: seq<Step>, p: nat)
    requires admission.Admission?
    requires var log := After(config, admission, at, steps).log;
             Fold(log).Ok? && 1 <= p < |log| && log[p].event.NodeStarted?
    ensures var log := After(config, admission, at, steps).log;
            var node := log[p].event.node;
            && Fold(log[..p]).Ok?
            && var state := Fold(log[..p]).value;
               && node !in state.running
               && (|| RouteNames(config.definition, state, node)
                   || (&& !state.HasFinished(node)
                       && InsideOpenIteration(config.definition, state, node)
                       && forall edge, source ::
                            edge in config.definition.graph.edges && node in edge.targets
                            && source in edge.sources && source != node ==>
                              DoneFor(config.definition, state, node, source)))
  {
    hide Run, Fold, RouteNames, DoneFor, InsideOpenIteration;
    LogObeysTheLaw(config, admission, at, steps);
    var log := After(config, admission, at, steps).log;
    FoldsUpTo(log, p + 1);
    NodeStartsWhenReady(config, Fold(log[..p]).value, log[p].event.node);
  }

  lemma NodeStartsWhenReady(config: Config, state: RunState, node: Identifier)
    requires Permitted(config, state, NodeStarted(node))
    ensures node !in state.running
    ensures || RouteNames(config.definition, state, node)
            || (&& !state.HasFinished(node)
                && InsideOpenIteration(config.definition, state, node)
                && forall edge, source ::
                     edge in config.definition.graph.edges && node in edge.targets
                     && source in edge.sources && source != node ==>
                       DoneFor(config.definition, state, node, source))
  {
    hide RouteNames;
    ReadyExactlyWhen(config.definition, state, node);
  }

  lemma ApplyKeepsStopped(state: RunState, event: RunEvent, at: Time, region: Identifier)
    requires ApplyEvent(state, event, at).Ok?
    requires state.LoopOf(region).stopped.Some? || (event.LoopStopped? && event.region == region)
    ensures ApplyEvent(state, event, at).value.LoopOf(region).stopped.Some?
  {
  }

  lemma {:induction false} StoppedFrom(log: seq<RecordedEvent>, p: nat, region: Identifier)
    requires Fold(log).Ok? && 1 <= p < |log| && log[p].event.LoopStopped? && log[p].event.region == region
    ensures Fold(log).value.LoopOf(region).stopped.Some?
    decreases |log|
  {
    var before, last := log[..|log| - 1], log[|log| - 1];
    hide ApplyEvent;
    if p < |before| {
      StoppedFrom(before, p, region);
    }
    ApplyKeepsStopped(Fold(before).value, last.event, last.at, region);
  }

  /** A loop stops once: nothing is recorded about its iterations, or its stopping, afterwards. */
  lemma StoppedLoopsStayStopped(
    config: Config, admission: RunEvent, at: Time, steps: seq<Step>, p: nat, q: nat)
    requires admission.Admission?
    requires var log := After(config, admission, at, steps).log;
             Fold(log).Ok? && 1 <= p < q < |log| && log[p].event.LoopStopped?
    ensures var log := After(config, admission, at, steps).log;
            var region, later := log[p].event.region, log[q].event;
            later.IterationStarted? || later.IterationFinished? || later.LoopStopped? ==> later.region != region
  {
    hide Run, Fold;
    LogObeysTheLaw(config, admission, at, steps);
    var log := After(config, admission, at, steps).log;
    FoldsUpTo(log, q + 1);
    FoldsUpTo(log, q);
    StoppedFrom(log[..q], p, log[p].event.region);
    LoopEventsNeedARunningLoop(config, Fold(log[..q]).value, log[q].event);
  }

  lemma LoopEventsNeedARunningLoop(config: Config, state: RunState, event: RunEvent)
    requires Permitted(config, state, event)
    ensures event.IterationStarted? || event.IterationFinished? || event.LoopStopped? ==>
      state.LoopOf(event.region).stopped.None?
  {
    hide Admitted;
  }

  /** A loop goes round again only when its condition was reported true, and ends on it only when false. */
  lemma LoopsFollowTheirCondition(config: Config, admission: RunEvent, at: Time, steps: seq<Step>, p: nat)
    requires admission.Admission?
    requires var log := After(config, admission, at, steps).log; Fold(log).Ok? && 1 <= p < |log|
    ensures var log := After(config, admission, at, steps).log;
            && Fold(log[..p]).Ok?
            && var state, event := Fold(log[..p]).value, log[p].event;
               && (event.IterationStarted? && event.index > 0 ==> ContinuationIs(config, state, event.region, true))
               && (event.LoopStopped? && event.reason.ConditionFalse? ==> ContinuationIs(config, state, event.region, false))
  {
    hide Run, Fold, ContinuationIs, Admitted, StopsFor;
    LogObeysTheLaw(config, admission, at, steps);
    var log := After(config, admission, at, steps).log;
    FoldsUpTo(log, p + 1);
    LawfulAt(config, log, p);
    if log[p].event.LoopStopped? && log[p].event.reason.ConditionFalse? {
      StopsOnItsCondition(config, Fold(log[..p]).value, log[p].event.region, log[p].event.reason);
    }
  }

  lemma StopsOnItsCondition(config: Config, state: RunState, region: Identifier, reason: StopReason)
    requires StopsFor(config.definition, state, region, reason) && reason.ConditionFalse?
    ensures ContinuationIs(config, state, region, false)
  {
  }

  /**
   A loop is stopped, a run suspended, and a run failed only for a cause the definition declares and the
   log before shows.
   */
  lemma EndsHaveCauses(config: Config, admission: RunEvent, at: Time, steps: seq<Step>, p: nat)
    requires admission.Admission?
    requires var log := After(config, admission, at, steps).log; Fold(log).Ok? && 1 <= p < |log|
    ensures var log := After(config, admission, at, steps).log;
            && Fold(log[..p]).Ok?
            && var state := Fold(log[..p]).value;
               match log[p].event
               case LoopStopped(region, reason) => StopsFor(config.definition, state, region, reason)
               case Suspended(wait) => RouteEscalates(config.definition, state, wait)
               case Failed(reason) => FailsFor(config.definition, state, reason)
               case _ => true
  {
    hide Run, Fold, StopsFor, RouteEscalates, FailsFor;
    LogObeysTheLaw(config, admission, at, steps);
    var log := After(config, admission, at, steps).log;
    FoldsUpTo(log, p + 1);
    LawfulAt(config, log, p);
  }

  // ---- Compensations. ----

  /** What is owed first is owed for the newest finalization that still owes anything. */
  lemma {:induction false} NewestOwedFirst(definition: Definition, state: RunState, order: seq<EffectRef>) returns (i: nat)
    requires OwedFor(definition, state, order) != []
    ensures i < |order| && Owed(definition, state, order[i]) == Some(OwedFor(definition, state, order)[0])
    ensures forall j :: i < j < |order| ==> Owed(definition, state, order[j]).None?
  {
    hide Owed;
    var before := order[..|order| - 1];
    if Owed(definition, state, order[|order| - 1]).None? {
      i := NewestOwedFirst(definition, state, before);
      assert forall j :: 0 <= j < |before| ==> order[j] == before[j];
    } else {
      i := |order| - 1;
    }
  }

  /** Effects are undone newest first: whatever was finalized after this one owes nothing any more. */
  lemma CompensationsRunNewestFirst(config: Config, admission: RunEvent, at: Time, steps: seq<Step>, p: nat)
    returns (i: nat)
    requires admission.Admission?
    requires var log := After(config, admission, at, steps).log;
             Fold(log).Ok? && 1 <= p < |log| && log[p].event.Compensated?
    ensures var log := After(config, admission, at, steps).log;
            && Fold(log[..p]).Ok?
            && var state, event := Fold(log[..p]).value, log[p].event;
               && i < |state.finalizedOrder|
               && state.finalizedOrder == Finalizations(log[..p])
               && state.finalizedOrder[i] == (event.node, event.effect)
               && (event.node, event.effect) !in state.compensated
               && forall j :: i < j < |state.finalizedOrder| ==>
                    Owed(config.definition, state, state.finalizedOrder[j]).None?
  {
    hide Run, Fold;
    LogObeysTheLaw(config, admission, at, steps);
    var log := After(config, admission, at, steps).log;
    FoldsUpTo(log, p + 1);
    var state := Fold(log[..p]).value;
    FoldTracksFinalizations(log[..p]);
    i := NewestOwedFirst(config.definition, state, state.finalizedOrder);
  }

  lemma ApplyKeepsCompensated(state: RunState, event: RunEvent, at: Time, done: EffectRef)
    requires ApplyEvent(state, event, at).Ok?
    requires done in state.compensated || (event.Compensated? && (event.node, event.effect) == done)
    ensures done in ApplyEvent(state, event, at).value.compensated
  {
  }

  lemma {:induction false} CompensatedFrom(log: seq<RecordedEvent>, p: nat)
    requires Fold(log).Ok? && 1 <= p < |log| && log[p].event.Compensated?
    ensures (log[p].event.node, log[p].event.effect) in Fold(log).value.compensated
    decreases |log|
  {
    var before, last := log[..|log| - 1], log[|log| - 1];
    hide ApplyEvent;
    if p < |before| {
      CompensatedFrom(before, p);
    }
    ApplyKeepsCompensated(Fold(before).value, last.event, last.at, (log[p].event.node, log[p].event.effect));
  }

  /** No log records that an effect was undone twice. */
  lemma EffectsAreUndoneOnce(config: Config, admission: RunEvent, at: Time, steps: seq<Step>, p: nat, q: nat)
    requires admission.Admission?
    requires var log := After(config, admission, at, steps).log;
             Fold(log).Ok? && 1 <= p < q < |log| && log[p].event.Compensated? && log[q].event.Compensated?
    ensures var log := After(config, admission, at, steps).log;
            (log[p].event.node, log[p].event.effect) != (log[q].event.node, log[q].event.effect)
  {
    hide Run, Fold;
    var log := After(config, admission, at, steps).log;
    var i := CompensationsRunNewestFirst(config, admission, at, steps, q);
    FoldsUpTo(log, q);
    CompensatedFrom(log[..q], p);
  }

  // ---- The claims ledger. ----

  lemma ApplyKeepsCompleted(state: RunState, event: RunEvent, at: Time, done: EffectRef)
    requires ApplyEvent(state, event, at).Ok?
    requires done in state.completed || (event.EffectFinalized? && (event.node, event.effect) == done)
    ensures done in ApplyEvent(state, event, at).value.completed
  {
  }

  lemma {:induction false} FinalizedIsCompleted(log: seq<RecordedEvent>, q: nat)
    requires Fold(log).Ok? && 1 <= q < |log| && log[q].event.EffectFinalized?
    ensures (log[q].event.node, log[q].event.effect) in Fold(log).value.completed
    decreases |log|
  {
    var before, last := log[..|log| - 1], log[|log| - 1];
    hide ApplyEvent;
    if q < |before| {
      FinalizedIsCompleted(before, q);
    }
    ApplyKeepsCompleted(Fold(before).value, last.event, last.at, (log[q].event.node, log[q].event.effect));
  }

  /**
   The store refuses a claim on an attempt its ledger holds as finalized. No worker ever runs into that:
   an effect is not claimed again once it was finalized, under any attempt.
   */
  lemma NoClaimAfterFinalization(config: Config, admission: RunEvent, at: Time, steps: seq<Step>, q: nat, p: nat)
    requires admission.Admission?
    requires var log := After(config, admission, at, steps).log;
             Fold(log).Ok? && 1 <= q < p < |log| && log[q].event.EffectFinalized? && log[p].event.EffectClaimed?
    ensures var log := After(config, admission, at, steps).log;
            (log[q].event.node, log[q].event.effect) != (log[p].event.node, log[p].event.effect)
  {
    hide Run, Fold;
    LogObeysTheLaw(config, admission, at, steps);
    var log := After(config, admission, at, steps).log;
    FoldsUpTo(log, p + 1);
    FoldsUpTo(log, p);
    FinalizedIsCompleted(log[..p], q);
    ClaimsAreUnfinished(config, Fold(log[..p]).value, log[p].event);
  }

  lemma ClaimsAreUnfinished(config: Config, state: RunState, event: RunEvent)
    requires Permitted(config, state, event) && event.EffectClaimed?
    ensures (event.node, event.effect) !in state.completed
  {
  }
}
