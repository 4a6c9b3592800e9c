/**
 When a run's log stops folding. The two appends that break it are named by a condition on the
 system before the step; every other step of every interleaving keeps the log foldable, and what a
 broken log may still collect is bounded.
 */
module LogIntegrity {
  import opened Wrappers
  import opened RunEvents
  import opened RunStates
  import opened Waits
  import opened DecisionCore
  import opened RunProtocol
  import opened GraphWorkers
  import opened RunLogs
  import opened GraphWorkerSafety
  import opened GraphWorkerTheorems
  import opened UnrepeatableEffects

  /** The owner is about to start a node that the log already shows running. */
  ghost predicate StartsARunningNode(s: System, step: Step) {
    && step.Append? && step.worker in s.workers && s.workers[step.worker].epoch == s.epoch
    && s.workers[step.worker].phase.OpeningNode?
    && Fold(s.log).Ok? && s.workers[step.worker].phase.node in Fold(s.log).value.running
  }

  /** The owner answers a signal for a run that has already ended. */
  ghost predicate ResumesAnEndedRun(s: System, step: Step) {
    && step.AnswerSignal? && step.worker in s.workers && s.workers[step.worker].epoch == s.epoch
    && s.workers[step.worker].phase.Folded?
    && Fold(s.log).Ok? && Fold(s.log).value.status.IsTerminal()
    && Resume(Fold(s.log).value.waitingOn, step.signal, s.workers[step.worker].now).Ok?
  }

  lemma AppendBreaksExactlyWhen(config: Config, s: System, w: WorkerId, at: Time)
    requires Inv(config, s) && Broken(s).None?
    ensures DoAppend(s, w, at).log != []
    ensures Broken(DoAppend(s, w, at)).Some? <==> StartsARunningNode(s, Append(w, at))
  {
    var t := DoAppend(s, w, at);
    hide Good, Permitted, PhaseOk, Apply, ApplyEvent, PendingEvent, Evidence;
    ScanIsFold(s.log);
    if w in s.workers && s.workers[w].epoch == s.epoch && PendingEvent(s.workers[w].phase).Some? {
      var phase := s.workers[w].phase;
      assert WorkerInv(config, s, s.workers[w]);
      var recorded := RecordedEvent(|s.log|, s.epoch, at, PendingEvent(phase).value);
      assert t.log == s.log + [recorded];
      if phase.OpeningNode? && phase.node in Core(s).running {
        OpeningBreaks(config, Core(s), phase);
        AppendBreaks(config, s, recorded);
      } else {
        PendingIsPermitted(config, Core(s), phase);
        AppendToUnbroken(config, s, recorded);
      }
    } else {
      assert t.log == s.log;
      OpeningAppends(s, w);
    }
  }

  lemma OpeningAppends(s: System, w: WorkerId)
    ensures w in s.workers && s.workers[w].phase.OpeningNode? ==> PendingEvent(s.workers[w].phase).Some?
  {
  }

  lemma SignalBreaksExactlyWhen(config: Config, s: System, w: WorkerId, signal: Signal)
    requires Inv(config, s) && Broken(s).None?
    ensures DoSignal(s, w, signal).log != []
    ensures Broken(DoSignal(s, w, signal)).Some? <==> ResumesAnEndedRun(s, AnswerSignal(w, signal))
  {
    var t := DoSignal(s, w, signal);
    hide Good, Permitted, PhaseOk, Apply, ApplyEvent, Resume, Fold;
    ScanIsFold(s.log);
    if w in s.workers && s.workers[w].epoch == s.epoch && s.workers[w].phase.Folded? {
      var worker := s.workers[w];
      assert WorkerInv(config, s, worker);
      OwnerSeesCore(config, s, worker);
      var answer := Resume(Core(s).waitingOn, signal, worker.now);
      if answer.Ok? {
        var recorded := RecordedEvent(|s.log|, s.epoch, worker.now, answer.value);
        assert t.log == s.log + [recorded];
        ResumptionIsPermitted(config, Core(s), answer.value);
        if Core(s).status.IsTerminal() {
          AppendBreaks(config, s, recorded);
        } else {
          AppendToUnbroken(config, s, recorded);
        }
      }
    } else {
      assert t.log == s.log;
    }
  }

  /** A step breaks the log exactly when it is one of the two named appends. */
  ghost predicate Breaks(s: System, step: Step) {
    StartsARunningNode(s, step) || ResumesAnEndedRun(s, step)
  }

  lemma StepBreaksExactlyWhen(config: Config, s: System, step: Step)
    requires Inv(config, s) && Fold(s.log).Ok?
    ensures Fold(Do(config, s, step).log).Err? <==> Breaks(s, step)
  {
    var t := Do(config, s, step);
    hide Good, WorkerInv, Fold, ScanLog, Begin, Decide, PendingEvent, Resume, Apply;
    ScanIsFold(s.log);
    if step.Append? {
      AppendBreaksExactlyWhen(config, s, step.worker, StampFor(s, step.worker, step.at));
      AppendKeepsInv(config, s, step.worker, StampFor(s, step.worker, step.at));
      ScanIsFold(t.log);
    } else if step.AnswerSignal? {
      SignalBreaksExactlyWhen(config, s, step.worker, step.signal);
      SignalKeepsInv(config, s, step.worker, step.signal);
      ScanIsFold(t.log);
    } else {
      assert t.log == s.log;
    }
  }

  lemma LogBreaksExactlyWhen(config: Config, admission: RunEvent, at: Time, steps: seq<Step>, step: Step)
    requires admission.Admission? && Fold(After(config, admission, at, steps).log).Ok?
    ensures Fold(Do(config, After(config, admission, at, steps), step).log).Err?
            <==> Breaks(After(config, admission, at, steps), step)
  {
    hide Inv, Breaks, Do, Fold, Run;
    Reached(config, admission, at, steps);
    StepBreaksExactlyWhen(config, After(config, admission, at, steps), step);
  }

  /** Once refused, a log is refused however it grows. */
  lemma BrokenStaysBroken(config: Config, s: System, step: Step)
    requires Inv(config, s) && Fold(s.log).Err?
    ensures Fold(Do(config, s, step).log).Err?
  {
    var t := Do(config, s, step);
    if t.log != s.log {
      OnlyOwnersAppend(config, s, step);
      assert Opens(s.log) by { hide Good, WorkerInv; }
      hide Inv, Fold, Do;
      assert t.log[..|s.log|] == s.log;
      FoldKeepsError(t.log, |s.log|);
    }
  }

  /** A run's log folds exactly when no step of the interleaving was one of the two that break it. */
  lemma {:induction false} RunFoldsExactlyWhen(config: Config, admission: RunEvent, at: Time, steps: seq<Step>)
    requires admission.Admission?
    ensures Fold(After(config, admission, at, steps).log).Ok? <==>
      forall k :: 0 <= k < |steps| ==> !Breaks(After(config, admission, at, steps[..k]), steps[k])
  {
    hide Inv, Breaks, Do, Fold;
    if steps == [] {
      FreshLogFolds(admission, at);
    } else {
      var before, step := steps[..|steps| - 1], steps[|steps| - 1];
      RunFoldsExactlyWhen(config, admission, at, before);
      Reached(config, admission, at, before);
      var s := After(config, admission, at, before);
      assert After(config, admission, at, steps) == Do(config, s, step);
      assert forall k :: 0 <= k < |before| ==> steps[..k] == before[..k] && steps[k] == before[k];
      if Fold(s.log).Ok? {
        StepBreaksExactlyWhen(config, s, step);
      } else {
        BrokenStaysBroken(config, s, step);
      }
    }
  }

  lemma FreshLogFolds(admission: RunEvent, at: Time)
    requires admission.Admission?
    ensures Fold(Created(admission, at).log).Ok?
  {
  }

  /** Where a broken log broke: the prefix before that position folds. */
  lemma {:induction false} BrokenPrefix(log: seq<RecordedEvent>)
    requires Opens(log) && ScanLog(log).broken.Some?
    ensures 1 <= ScanLog(log).broken.value < |log|
    ensures Fold(log[..ScanLog(log).broken.value]) == Ok(ScanLog(log).state)
  {
    var before := log[..|log| - 1];
    hide Apply;
    if ScanLog(before).broken.Some? {
      BrokenPrefix(before);
      assert before[..ScanLog(before).broken.value] == log[..ScanLog(before).broken.value];
    } else {
      ScanIsFold(before);
    }
  }

  /**
   What a broken log looks like: a prefix that folds, the event that broke it, and after it only
   the endings of nodes already under way and requests to cancel. No effect is claimed, finalized
   or given up, no loop moves and no run ends in a log nobody can fold.
   */
  lemma BrokenLogOnlyWindsDown(config: Config, admission: RunEvent, at: Time, steps: seq<Step>)
    returns (p: nat)
    requires admission.Admission? && Fold(After(config, admission, at, steps).log).Err?
    ensures var log := After(config, admission, at, steps).log;
            && 1 <= p < |log|
            && Fold(log[..p]).Ok?
            && BreakingEvent(config, Fold(log[..p]).value, log[p].event)
            && forall q :: p < q < |log| ==> Harmless(log[q].event)
  {
    hide WorkerInv, Good, Run, Fold, ScanLog, BreakingEvent;
    Reached(config, admission, at, steps);
    var s := After(config, admission, at, steps);
    ScanIsFold(s.log);
    BrokenPrefix(s.log);
    p := Broken(s).value;
  }
}
