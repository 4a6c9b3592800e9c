/**
 What a fleet of graph workers guarantees, for every definition, every number of workers, and
 every interleaving of leases, stalls, crashes, takeovers and executor outcomes.
 */
module GraphWorkerTheorems {
  import opened Wrappers
  import opened Identifiers
  import opened RunEvents
  import opened RunStates
  import opened RunEffects
  import opened Waits
  import opened DecisionCore
  import opened RunProtocol
  import opened GraphWorkers
  import opened RunLogs
  import opened GraphWorkerSafety

  /** The system after one interleaving, starting from a freshly created run. */
  function After(config: Config, admission: RunEvent, at: Time, steps: seq<Step>): System
    requires admission.Admission?
  {
    Run(config, Created(admission, at), steps)
  }

  lemma Reached(config: Config, admission: RunEvent, at: Time, steps: seq<Step>)
    requires admission.Admission?
    ensures Inv(config, After(config, admission, at, steps))
  {
    hide Inv;
    CreatedIsOk(config, admission, at);
    RunKeepsInv(config, Created(admission, at), steps);
  }

  // ---- Fencing. ----

  /** The worker a step belongs to holds the current lease, and everything after what it read is its own. */
  ghost predicate Owns(s: System, w: WorkerId) {
    && w in s.workers && s.workers[w].epoch == s.epoch
    && s.workers[w].seen <= s.log
    && (forall q :: |s.workers[w].seen| <= q < |s.log| ==> s.log[q].epoch == s.epoch)
    && (forall v :: v in s.workers && v != w ==> s.workers[v].epoch < s.epoch)
  }

  /**
   A successful append is made by the one current lease, at the next position, onto exactly the log
   that worker last read followed by its own appends. Superseded workers change nothing.
   */
  lemma AppendsAreFenced(config: Config, admission: RunEvent, at: Time, steps: seq<Step>, step: Step)
    requires admission.Admission?
    ensures var s := After(config, admission, at, steps);
            var t := Do(config, s, step);
            t.log != s.log ==>
              && Owns(s, step.worker)
              && |t.log| == |s.log| + 1 && t.log[..|s.log|] == s.log
              && t.log[|s.log|].position == |s.log| && t.log[|s.log|].epoch == s.epoch
  {
    var s := After(config, admission, at, steps);
    Reached(config, admission, at, steps);
    var t := Do(config, s, step);
    if t.log != s.log {
      hide LogInv, Evidence, OwnerInv, Begin, Decide, Fold, Resume, PendingEvent;
      OnlyOwnersAppend(config, s, step);
      OwnerOwns(config, s, step.worker);
    }
  }

  lemma OnlyOwnersAppend(config: Config, s: System, step: Step)
    requires Do(config, s, step).log != s.log
    ensures step.worker in s.workers && s.workers[step.worker].epoch == s.epoch
    ensures exists at, event :: Do(config, s, step).log == s.log + [RecordedEvent(|s.log|, s.epoch, at, event)]
  {
    hide Begin, Decide, Fold, Resume, PendingEvent, PhaseAfterAppend;
    var w := step.worker;
    assert step.Append? || step.AnswerSignal?;
    if step.Append? {
      assert Do(config, s, step).log ==
        s.log + [RecordedEvent(|s.log|, s.epoch, StampFor(s, w, step.at), PendingEvent(s.workers[w].phase).value)];
    } else {
      assert Do(config, s, step).log ==
        s.log + [RecordedEvent(|s.log|, s.epoch, s.workers[w].now,
                               Resume(Fold(s.workers[w].seen).value.waitingOn, step.signal, s.workers[w].now).value)];
    }
  }

  lemma OwnerOwns(config: Config, s: System, w: WorkerId)
    requires Inv(config, s) && w in s.workers && s.workers[w].epoch == s.epoch
    ensures Owns(s, w)
  {
    hide LogInv, Evidence, PhaseOk, Fold, ScanLog;
    assert WorkerInv(config, s, s.workers[w]);
    forall v | v in s.workers && v != w
      ensures s.workers[v].epoch < s.epoch
    {
      assert WorkerInv(config, s, s.workers[v]);
    }
  }

  /** Positions are gapless and epochs never decrease: no superseded event follows a newer epoch's. */
  lemma LogIsOrdered(config: Config, admission: RunEvent, at: Time, steps: seq<Step>)
    requires admission.Admission?
    ensures Ordered(After(config, admission, at, steps).log, After(config, admission, at, steps).epoch)
  {
    Reached(config, admission, at, steps);
  }

  /** A lease that can no longer write, and has no authorised executor call left to make. */
  predicate Fenced(s: System, epoch: nat) {
    && epoch < s.epoch
    && forall w :: w in s.workers && s.workers[w].epoch == epoch ==>
         !s.workers[w].phase.RunningNode? && !s.workers[w].phase.PerformingEffect?
  }

  /** The node and effect requests one lease made. */
  function CallsUnder(calls: seq<Call>, epoch: nat): seq<Call> {
    if calls == [] then []
    else
      var last := calls[|calls| - 1];
      CallsUnder(calls[..|calls| - 1], epoch)
      + (if last.epoch == epoch && !last.CompensationCall? then [last] else [])
  }

  lemma CallsUnderAppend(calls: seq<Call>, call: Call, epoch: nat)
    ensures CallsUnder(calls + [call], epoch) ==
      CallsUnder(calls, epoch) + (if call.epoch == epoch && !call.CompensationCall? then [call] else [])
  {
    assert (calls + [call])[..|calls|] == calls;
  }

  lemma FencedStep(config: Config, s: System, step: Step, epoch: nat)
    requires Fenced(s, epoch)
    ensures Fenced(Do(config, s, step), epoch)
    ensures CallsUnder(Do(config, s, step).calls, epoch) == CallsUnder(s.calls, epoch)
  {
    hide Begin, Decide, Fold, Resume, PendingEvent, CallsUnder, ProjectedStatus;
    var t := Do(config, s, step);
    if t.calls != s.calls {
      CallsUnderAppend(s.calls, t.calls[|s.calls|], epoch);
    }
    if step.DecideNow? && t != s && step.worker in t.workers {
      var worker := s.workers[step.worker];
      var state := Fold(worker.seen).value;
      BeginStartsBeforeTheExecutor(config, state, Decide(config.definition, state, worker.now), worker.now, step.identity);
    }
  }

  lemma BeginStartsBeforeTheExecutor(
    config: Config, state: RunState, decision: Decision, now: Time, identity: Identifier)
    ensures var begun := Begin(config, state, decision, now, identity);
            begun.Some? ==>
              !begun.value.RunningNode? && !begun.value.PerformingEffect? && !begun.value.ResolvingEffect?
  {
    hide AttemptFor, RecordIteration, Members, FindClaim, WallMsOf;
  }

  /** After that, however the run goes on, the lease asks for no further node and no further effect. */
  lemma {:induction false} FencedForever(config: Config, s: System, steps: seq<Step>, epoch: nat)
    requires Fenced(s, epoch)
    ensures Fenced(Run(config, s, steps), epoch)
    ensures CallsUnder(Run(config, s, steps).calls, epoch) == CallsUnder(s.calls, epoch)
  {
    if steps != [] {
      hide Fenced, Do;
      FencedForever(config, s, steps[..|steps| - 1], epoch);
      FencedStep(config, Run(config, s, steps[..|steps| - 1]), steps[|steps| - 1], epoch);
    }
  }

  /** A refused append, of an event or of a signal's answer, fences the lease that made it. */
  lemma RefusalFences(config: Config, admission: RunEvent, at: Time, steps: seq<Step>, step: Step)
    requires admission.Admission?
    requires step.Append? || step.AnswerSignal?
    requires var s := After(config, admission, at, steps);
             && step.worker in s.workers && s.workers[step.worker].epoch != s.epoch
             && (step.Append? ==> PendingEvent(s.workers[step.worker].phase).Some?)
             && (step.AnswerSignal? ==> s.workers[step.worker].phase.Folded?)
    ensures var s := After(config, admission, at, steps);
            Fenced(Do(config, s, step), s.workers[step.worker].epoch)
  {
    var s := After(config, admission, at, steps);
    Reached(config, admission, at, steps);
    hide LogInv, Evidence, OwnerInv, Fold, Resume;
    assert WorkerInv(config, s, s.workers[step.worker]);
  }

  // ---- Write-ahead. ----

  /** The durable record that authorised an executor request, written under the same lease. */
  ghost predicate Authorised(config: Config, log: seq<RecordedEvent>, call: Call) {
    match call
    case NodeCall(epoch, node, p) => p < |log| && log[p].event == NodeStarted(node) && log[p].epoch == epoch
    case EffectCall(epoch, attempt, p, _) =>
      && p < |log| && log[p].event == attempt.Claimed() && log[p].epoch == epoch
      && AttemptOk(config, attempt)
    case CompensationCall(_, _) => true
  }

  ghost predicate AllAuthorised(config: Config, s: System) {
    forall i :: 0 <= i < |s.calls| ==> Authorised(config, s.log, s.calls[i])
  }

  lemma StepKeepsAuthorised(config: Config, s: System, step: Step)
    requires Inv(config, s) && AllAuthorised(config, s)
    ensures AllAuthorised(config, Do(config, s, step))
  {
    hide LogInv, OwnerInv, Good, AttemptOk, Begin, Decide, Fold, Resume, PendingEvent, ProjectedStatus;
    var t := Do(config, s, step);
    assert s.log <= t.log;
    if t.calls != s.calls {
      assert WorkerInv(config, s, s.workers[step.worker]);
    }
  }

  lemma {:induction false} RunKeepsAuthorised(config: Config, s: System, steps: seq<Step>)
    requires Inv(config, s) && AllAuthorised(config, s)
    ensures AllAuthorised(config, Run(config, s, steps))
  {
    if steps != [] {
      hide Inv, AllAuthorised, Do;
      RunKeepsAuthorised(config, s, steps[..|steps| - 1]);
      RunKeepsInv(config, s, steps[..|steps| - 1]);
      StepKeepsAuthorised(config, Run(config, s, steps[..|steps| - 1]), steps[|steps| - 1]);
    }
  }

  /** Every node or effect an executor is asked for already has its start or claim in the log. */
  lemma ExecutorCallsAreWrittenAhead(config: Config, admission: RunEvent, at: Time, steps: seq<Step>)
    requires admission.Admission?
    ensures AllAuthorised(config, After(config, admission, at, steps))
  {
    hide Inv;
    CreatedIsOk(config, admission, at);
    RunKeepsAuthorised(config, Created(admission, at), steps);
  }

  /**
   Whatever crashes and takeovers happen, a run presents one key for one keyed effect, so a far side
   that ignores repeated keys applies the effect at most once.
   */
  lemma KeyedEffectHasOneKey(config: Config, admission: RunEvent, at: Time, steps: seq<Step>, i: nat)
    requires admission.Admission?
    requires var calls := After(config, admission, at, steps).calls;
             i < |calls| && calls[i].EffectCall? && HasKey(config, calls[i].attempt.node, calls[i].attempt.effect)
    ensures var attempt := After(config, admission, at, steps).calls[i].attempt;
            attempt.key.Some? && attempt.key == TheKey(config, attempt.node, attempt.effect) && attempt.attempt == 0
  {
    ExecutorCallsAreWrittenAhead(config, admission, at, steps);
    assert Authorised(config, After(config, admission, at, steps).log, After(config, admission, at, steps).calls[i]);
  }
}
