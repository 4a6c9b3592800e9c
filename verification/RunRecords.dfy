/**
 What a run's log records of its own past: the nodes an iteration resets, the readings and the time a
 closed iteration reports, and the results of a completed run. Each is said on earlier events of the log,
 so any worker that takes over writes the same.
 */
module RunRecords {
  import opened Wrappers
  import opened Identifiers
  import opened Definition
  import opened RunEvents
  import opened RunStates
  import opened Waits
  import RunResults
  import opened DecisionCore
  import opened RunProtocol
  import opened GraphWorkers
  import opened GraphWorkerSafety
  import opened GraphWorkerTheorems
  import Readings = LogReadings
  import opened RunOutcomes

  // ---- Iterations. ----

  function ProducedIn(log: seq<RecordedEvent>, node: Identifier): Outputs {
    var outputs := Readings.OutputsIn(log, node);
    if outputs.Some? then outputs.value else map[]
  }

  /** A record of one turn of a loop, against the log before it. */
  ghost predicate ClosesAs(log: seq<RecordedEvent>, declared: Region, record: IterationRecord) {
    && declared.kind.Loop?
    && record.stateIn == ProducedIn(log, declared.entry)
    && record.stateOut == ProducedIn(log, declared.exit)
    && var spec := declared.kind.spec;
       && |record.invariants| == |spec.invariants|
       && (forall i :: 0 <= i < |spec.invariants| ==>
             && record.invariants[i].invariantId == spec.invariants[i].id
             && record.invariants[i].timing == spec.invariants[i].timing
             && Readings.ControlIn(log, spec.invariants[i].evaluator, spec.invariants[i].port)
                == Some(Bool(record.invariants[i].held)))
       && match spec.progress
          case None => record.progress.None?
          case Some(measure) =>
            && record.progress.Some?
            && Readings.ControlIn(log, measure.measuredBy, measure.port) == Some(Integer(record.progress.value))
  }

  lemma ReadMeansClosesAs(
    definition: Definition, log: seq<RecordedEvent>, state: RunState, region: Identifier, record: IterationRecord)
    returns (declared: Region)
    requires Readings.Reads(log, state) && ReadFromTheLog(definition, state, region, record)
    ensures declared in definition.graph.regions && declared.id == region && ClosesAs(log, declared, record)
  {
    hide Readings.OutputsIn, Readings.ControlIn;
    declared := FindRegion(definition.graph.regions, region).value;
    assert Readings.NodeRead(log, state, declared.entry, "") && Readings.NodeRead(log, state, declared.exit, "");
    var spec := declared.kind.spec;
    forall i | 0 <= i < |spec.invariants|
      ensures Readings.ControlIn(log, spec.invariants[i].evaluator, spec.invariants[i].port)
              == Some(Bool(record.invariants[i].held))
    {
      assert Readings.NodeRead(log, state, spec.invariants[i].evaluator, spec.invariants[i].port);
    }
    if spec.progress.Some? {
      assert Readings.NodeRead(log, state, spec.progress.value.measuredBy, spec.progress.value.port);
    }
  }

  /** An opened iteration resets its region's nodes; a closed one records what was reported since. */
  lemma RecordsAreReadFromTheLog(config: Config, admission: RunEvent, at: Time, steps: seq<Step>, p: nat)
    requires admission.Admission?
    requires var log := After(config, admission, at, steps).log; Fold(log).Ok? && 1 <= p < |log|
    ensures var log, regions := After(config, admission, at, steps).log, config.definition.graph.regions;
            match log[p].event
            case IterationStarted(region, _, members) =>
              || (members == {} && forall declared :: declared in regions ==> declared.id != region)
              || exists declared :: declared in regions && declared.id == region && members == declared.nodes
            case IterationFinished(region, record) =>
              exists declared :: declared in regions && declared.id == region && ClosesAs(log[..p], declared, record)
            case _ => true
  {
    hide Run, Fold, Readings.Reads, ReadFromTheLog, ClosesAs;
    LogObeysTheLaw(config, admission, at, steps);
    var log := After(config, admission, at, steps).log;
    FoldsUpTo(log, p + 1);
    LawfulAt(config, log, p);
    if log[p].event.IterationFinished? {
      Readings.FoldReadsTheLog(log[..p]);
      var declared := ReadMeansClosesAs(
        config.definition, log[..p], Fold(log[..p]).value, log[p].event.region, log[p].event.record);
    }
  }

  // ---- The time an iteration took. ----

  ghost predicate Timed(state: RunState, event: RunEvent, now: Time) {
    event.IterationFinished? ==>
      event.record.spent == LoopBudget(1, IterationWallMs(state, event.region, now), 0, 0, 0)
  }

  ghost predicate TimedLog(log: seq<RecordedEvent>) {
    forall p :: 1 <= p < |log| && Fold(log[..p]).Ok? ==> Timed(Fold(log[..p]).value, log[p].event, log[p].at)
  }

  /** The owner is about to write a record timed by the log as it stands. */
  ghost predicate WillBeTimed(s: System, worker: Worker) {
    worker.epoch == s.epoch && worker.phase.Appending? && Fold(s.log).Ok? ==>
      Timed(Fold(s.log).value, worker.phase.event, worker.now)
  }

  ghost predicate TimesInv(s: System) {
    && TimedLog(s.log)
    && forall w :: w in s.workers ==> WillBeTimed(s, s.workers[w])
  }

  lemma BegunIsTimed(config: Config, state: RunState, decision: Decision, now: Time, identity: Identifier)
    ensures var begun := Begin(config, state, decision, now, identity);
            begun.Some? && begun.value.Appending? ==> Timed(state, begun.value.event, now)
  {
    hide AttemptFor, FindClaim, Members, WallMsOf, ReadFromTheLog, InvariantOutcomes, ProgressReading, IterationWallMs;
  }

  lemma TimedAppend(log: seq<RecordedEvent>, recorded: RecordedEvent)
    requires TimedLog(log) && (Fold(log).Ok? ==> Timed(Fold(log).value, recorded.event, recorded.at))
    ensures TimedLog(log + [recorded])
  {
    hide Fold, Timed;
    var longer := log + [recorded];
    forall p | 1 <= p < |longer| && Fold(longer[..p]).Ok?
      ensures Timed(Fold(longer[..p]).value, longer[p].event, longer[p].at)
    {
      assert longer[..p] == log[..p];
      if p == |log| {
        assert log[..p] == log;
      }
    }
  }

  /** The owner wrote one event and stands elsewhere; a closing record carries the time it was decided for. */
  ghost predicate WroteInTime(s: System, t: System, w: WorkerId) {
    && w in s.workers && w in t.workers && s.workers[w].epoch == s.epoch && !t.workers[w].phase.Appending?
    && t.epoch == s.epoch && (forall v :: v != w && v in t.workers ==> v in s.workers && t.workers[v] == s.workers[v])
    && |t.log| == |s.log| + 1 && t.log[..|s.log|] == s.log
    && (t.log[|s.log|].event.IterationFinished? ==>
          s.workers[w].phase == Appending(t.log[|s.log|].event) && t.log[|s.log|].at == s.workers[w].now)
  }

  lemma WritesInTime(config: Config, s: System, step: Step)
    requires Do(config, s, step).log != s.log
    ensures WroteInTime(s, Do(config, s, step), step.worker)
  {
    hide Begin, Decide, Fold, Resume;
    assert step.Append? || step.AnswerSignal?;
  }

  lemma WritingKeepsTimes(s: System, t: System, w: WorkerId)
    requires TimesInv(s) && DistinctEpochs(s) && WroteInTime(s, t, w)
    ensures TimesInv(t)
  {
    hide Fold, IterationWallMs;
    var recorded := t.log[|s.log|];
    assert t.log == s.log + [recorded];
    assert WillBeTimed(s, s.workers[w]);
    TimedAppend(s.log, recorded);
    hide TimedLog;
  }

  lemma QuietStepKeepsTimes(config: Config, s: System, step: Step)
    requires Inv(config, s) && TimesInv(s) && Do(config, s, step).log == s.log
    ensures TimesInv(Do(config, s, step))
  {
    var t := Do(config, s, step);
    hide Fold, IterationWallMs, TimedLog, Begin, Decide, LogInv, Evidence, PhaseOk, PendingEvent, Resume;
    forall v | v in t.workers
      ensures WillBeTimed(t, t.workers[v])
    {
      if v in s.workers {
        assert WorkerInv(config, s, s.workers[v]) && WillBeTimed(s, s.workers[v]);
      }
      if step.DecideNow? && step.worker == v && t != s {
        var state := Fold(s.workers[v].seen).value;
        BegunIsTimed(config, state, Decide(config.definition, state, s.workers[v].now), s.workers[v].now, step.identity);
      }
    }
  }

  lemma DifferInEpochs(config: Config, s: System)
    requires Inv(config, s)
    ensures DistinctEpochs(s)
  {
  }

  lemma {:induction false} RunKeepsTimes(config: Config, s: System, steps: seq<Step>)
    requires Inv(config, s) && TimesInv(s)
    ensures TimesInv(Run(config, s, steps))
  {
    hide Inv, TimesInv, Do, DistinctEpochs, WroteInTime;
    if steps != [] {
      var before, step := steps[..|steps| - 1], steps[|steps| - 1];
      RunKeepsTimes(config, s, before);
      RunKeepsInv(config, s, before);
      if Do(config, Run(config, s, before), step).log == Run(config, s, before).log {
        QuietStepKeepsTimes(config, Run(config, s, before), step);
      } else {
        WritesInTime(config, Run(config, s, before), step);
        DifferInEpochs(config, Run(config, s, before));
        WritingKeepsTimes(Run(config, s, before), Run(config, s, steps), step.worker);
      }
    }
  }

  lemma {:induction false} CountedIsFound(log: seq<RecordedEvent>, hit: Readings.Test)
    requires Readings.Count(log, hit) > 0
    ensures Readings.Latest(log, hit, Readings.Never()).Some?
  {
    if !hit(log[|log| - 1].event) {
      CountedIsFound(log[..|log| - 1], hit);
    }
  }

  /** The time since the latest opening, at least nothing and as far as the clock reaches. */
  lemma TimedByOpening(before: seq<RecordedEvent>, state: RunState, closing: RecordedEvent) returns (opening: nat)
    requires Readings.Reads(before, state) && closing.event.IterationFinished? && Timed(state, closing.event, closing.at)
    requires state.LoopOf(closing.event.region).started > state.LoopOf(closing.event.region).finished
    ensures opening < |before| && before[opening].event.IterationStarted?
    ensures before[opening].event.region == closing.event.region
    ensures forall q :: opening < q < |before| && before[q].event.IterationStarted? ==>
      before[q].event.region != closing.event.region
    ensures var elapsed := closing.at - before[opening].at;
            closing.event.record.spent ==
              LoopBudget(1, if elapsed < 0 then 0 else if elapsed > I64_MAX then I64_MAX else elapsed, 0, 0, 0)
  {
    hide Readings.Latest, Readings.Count;
    var region := closing.event.region;
    assert Readings.LoopRead(before, state, region);
    CountedIsFound(before, Readings.Opens(region));
    opening := Readings.Latest(before, Readings.Opens(region), Readings.Never()).value;
    assert Readings.Opens(region)(before[opening].event);
    forall q | opening < q < |before| && before[q].event.IterationStarted?
      ensures before[q].event.region != region
    {
      assert !Readings.Opens(region)(before[q].event);
    }
  }

  /**
   A closed iteration reports the time from its opening event to its closing event, at least nothing and
   as far as the clock reaches, whichever workers wrote the two; the other resources stay unmeasured.
   */
  lemma IterationsAreTimedByTheLog(config: Config, admission: RunEvent, at: Time, steps: seq<Step>, p: nat)
    returns (opening: nat)
    requires admission.Admission?
    requires var log := After(config, admission, at, steps).log;
             Fold(log).Ok? && 1 <= p < |log| && log[p].event.IterationFinished?
    ensures var log := After(config, admission, at, steps).log;
            && opening < p && log[opening].event.IterationStarted? && log[opening].event.region == log[p].event.region
            && (forall q :: opening < q < p && log[q].event.IterationStarted? ==>
                  log[q].event.region != log[p].event.region)
            && var elapsed := log[p].at - log[opening].at;
               log[p].event.record.spent ==
                 LoopBudget(1, if elapsed < 0 then 0 else if elapsed > I64_MAX then I64_MAX else elapsed, 0, 0, 0)
  {
    hide Run, Fold, Inv, Readings.Reads;
    var log := After(config, admission, at, steps).log;
    CreatedIsOk(config, admission, at);
    RunKeepsTimes(config, Created(admission, at), steps);
    LogObeysTheLaw(config, admission, at, steps);
    FoldsUpTo(log, p + 1);
    LawfulAt(config, log, p);
    Readings.FoldReadsTheLog(log[..p]);
    var state := Fold(log[..p]).value;
    assert Timed(state, log[p].event, log[p].at);
    hide Timed, ReadFromTheLog;
    opening := TimedByOpening(log[..p], state, log[p]);
  }

  // ---- Results. ----

  /** The log says that the node produced this under the port. */
  predicate Output(log: seq<RecordedEvent>, node: Identifier, port: string, digest: Digest) {
    var outputs := Readings.OutputsIn(log, node);
    outputs.Some? && port in outputs.value && outputs.value[port] == digest
  }

  /** Two different outputs whose joined names are the same, because the dots fall differently. */
  predicate Clash(log: seq<RecordedEvent>, node: Identifier, between: string, port: string, a: Digest, b: Digest) {
    Output(log, node, between + "." + port, a) && Output(log, node + "." + between, port, b) && a != b
  }

  lemma OutputsAreFinished(log: seq<RecordedEvent>, state: RunState, node: Identifier, port: string, digest: Digest)
    requires Readings.Reads(log, state)
    ensures Output(log, node, port, digest) <==>
      RunResults.IsOutput(state.finished, node, port) && state.finished[node][port] == digest
  {
    hide Readings.OutputsIn;
    assert Readings.NodeRead(log, state, node, port);
  }

  /**
   A completed run reports what its log says its nodes produced: every key is some node's output, the last
   node in order keeps a key, and nothing is lost exactly when no two different outputs clash.
   */
  lemma CompletionReportsAllExactlyWhen(config: Config, admission: RunEvent, at: Time, steps: seq<Step>, p: nat)
    requires admission.Admission?
    requires var log := After(config, admission, at, steps).log;
             Fold(log).Ok? && 1 <= p < |log| && log[p].event.Completed?
    ensures var before, results := After(config, admission, at, steps).log[..p], After(config, admission, at, steps).log[p].event.results;
            && (forall node :: node in config.definition.graph.nodes ==> Readings.OutputsIn(before, node.id).Some?)
            && ReportsOutputs(before, results)
            && (ReportsAll(before, results) <==>
                  forall node, between, port, a, b :: !Clash(before, node, between, port, a, b))
  {
    hide Run, Fold, Readings.Reads, ReportsOutputs, ReportsAll, Clash;
    LogObeysTheLaw(config, admission, at, steps);
    var log := After(config, admission, at, steps).log;
    FoldsUpTo(log, p + 1);
    LawfulAt(config, log, p);
    Readings.FoldReadsTheLog(log[..p]);
    var state := Fold(log[..p]).value;
    ResultsAreReported(log[..p], state);
    AllFinishedInLog(config, log[..p], state);
  }

  lemma AllFinishedInLog(config: Config, log: seq<RecordedEvent>, state: RunState)
    requires Readings.Reads(log, state) && AllFinished(config, state)
    ensures forall node :: node in config.definition.graph.nodes ==> Readings.OutputsIn(log, node.id).Some?
  {
    hide Readings.OutputsIn;
    forall node | node in config.definition.graph.nodes
      ensures Readings.OutputsIn(log, node.id).Some?
    {
      assert Readings.NodeRead(log, state, node.id, "");
    }
  }

  /** Every key is some node's output, and no later node has an output of that key. */
  ghost predicate ReportsOutputs(log: seq<RecordedEvent>, results: map<string, Digest>) {
    forall key :: key in results ==>
      exists node, port :: (
        && Output(log, node, port, results[key]) && key == node + "." + port
        && forall other, otherPort, digest ::
             Output(log, other, otherPort, digest) && other + "." + otherPort == key ==> Precedes(other, node))
  }

  ghost predicate ReportsAll(log: seq<RecordedEvent>, results: map<string, Digest>) {
    forall node, port, digest :: Output(log, node, port, digest) ==>
      node + "." + port in results && results[node + "." + port] == digest
  }

  /** The log's outputs are those the fold holds. */
  ghost predicate Same(log: seq<RecordedEvent>, finished: RunResults.Finished) {
    forall node, port, digest :: Output(log, node, port, digest) <==>
      RunResults.IsOutput(finished, node, port) && finished[node][port] == digest
  }

  lemma KeysHaveOwners(log: seq<RecordedEvent>, finished: RunResults.Finished)
    requires Same(log, finished)
    ensures ReportsOutputs(log, RunResults.Flattened(finished))
  {
    hide Output;
    var results := RunResults.Flattened(finished);
    forall key | key in results
      ensures exists node, port :: (
        && Output(log, node, port, results[key]) && key == node + "." + port
        && forall other, otherPort, digest ::
             Output(log, other, otherPort, digest) && other + "." + otherPort == key ==> Precedes(other, node))
    {
      var node, port := KeptByTheLast(finished, key);
      assert Output(log, node, port, results[key]);
    }
  }

  lemma KeptByTheLast(finished: RunResults.Finished, key: string) returns (node: Identifier, port: string)
    requires key in RunResults.Keys(finished)
    ensures RunResults.IsOutput(finished, node, port) && key == node + "." + port
    ensures RunResults.Flattened(finished)[key] == finished[node][port]
    ensures forall other, otherPort ::
      RunResults.IsOutput(finished, other, otherPort) && other + "." + otherPort == key ==> Precedes(other, node)
  {
    RunResults.SomebodyProduces(finished, key);
    node := Last(RunResults.Producers(finished, key));
    port := key[|node| + 1..];
    RunResults.ProducerHasKey(finished, node, key);
    forall other, otherPort | RunResults.IsOutput(finished, other, otherPort) && other + "." + otherPort == key
      ensures Precedes(other, node)
    {
      RunResults.KeyReadsBack(finished, other, otherPort);
      assert other in RunResults.Producers(finished, key);
    }
  }

  lemma AllReportedInLog(log: seq<RecordedEvent>, finished: RunResults.Finished, results: map<string, Digest>)
    requires Same(log, finished)
    ensures ReportsAll(log, results) <==> RunResults.AllReported(finished, results)
  {
    hide Output;
    if ReportsAll(log, results) {
      forall node, port | RunResults.IsOutput(finished, node, port)
        ensures RunResults.Key(node, port) in results && results[RunResults.Key(node, port)] == finished[node][port]
      {
        assert Output(log, node, port, finished[node][port]);
      }
    }
  }

  lemma ClashesInLog(log: seq<RecordedEvent>, finished: RunResults.Finished)
    requires Same(log, finished)
    ensures (exists node, between, port, a, b :: Clash(log, node, between, port, a, b)) <==>
      exists node, port, other, otherPort :: RunResults.Clash(finished, node, port, other, otherPort)
  {
    hide Output;
    if node, between, port, a, b :| Clash(log, node, between, port, a, b) {
      var other := node + "." + between;
      assert other[|node| + 1..] == between;
      assert RunResults.Clash(finished, node, between + "." + port, other, port);
    }
    if node, port, other, otherPort :| RunResults.Clash(finished, node, port, other, otherPort) {
      var between := other[|node| + 1..];
      assert Clash(log, node, between, otherPort, finished[node][port], finished[other][otherPort]);
    }
  }

  lemma ResultsAreReported(log: seq<RecordedEvent>, state: RunState)
    requires Readings.Reads(log, state)
    ensures var results := RunResults.Flattened(state.finished);
            && ReportsOutputs(log, results)
            && (ReportsAll(log, results) <==> forall node, between, port, a, b :: !Clash(log, node, between, port, a, b))
  {
    hide Readings.Reads, Output, ReportsOutputs, ReportsAll, Clash, RunResults.Clash, RunResults.AllReported;
    hide RunResults.Flattened;
    forall node, port, digest
      ensures Output(log, node, port, digest) <==>
        RunResults.IsOutput(state.finished, node, port) && state.finished[node][port] == digest
    {
      OutputsAreFinished(log, state, node, port, digest);
    }
    RunResults.EverythingReportedExactlyWhen(state.finished);
    KeysHaveOwners(log, state.finished);
    AllReportedInLog(log, state.finished, RunResults.Flattened(state.finished));
    ClashesInLog(log, state.finished);
  }
}
