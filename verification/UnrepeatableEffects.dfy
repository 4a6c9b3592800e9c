/**
 Effects that declare no way of being repeated safely: over every interleaving of every number of
 workers, at most one request for such an effect is made without the far side refusing it.
 */
module UnrepeatableEffects {
  import opened Wrappers
  import opened Identifiers
  import opened Definition
  import opened RunEvents
  import opened RunStates
  import opened Waits
  import opened Stopping
  import opened DecisionCore
  import opened RunProtocol
  import opened Causes
  import opened GraphWorkers
  import opened RunLogs
  import opened GraphWorkerSafety
  import opened GraphWorkerTheorems

  /** A request that may have taken effect: it was performed, or nobody knows. */
  predicate Landed(s: System, i: int, node: Identifier, effect: Identifier) {
    && 0 <= i < |s.calls| && s.calls[i].EffectCall?
    && s.calls[i].attempt.node == node && s.calls[i].attempt.effect == effect
    && !s.calls[i].result.Declined?
  }

  /** A worker, current or superseded, about to make the request its claim authorised. */
  predicate Poised(s: System, w: WorkerId, node: Identifier, effect: Identifier) {
    && w in s.workers && s.workers[w].phase.PerformingEffect?
    && s.workers[w].phase.attempt.node == node && s.workers[w].phase.attempt.effect == effect
  }

  /** The owner, holding the far side's refusal, about to abandon its claim. */
  predicate Declining(s: System, w: WorkerId, node: Identifier, effect: Identifier) {
    && w in s.workers && s.workers[w].epoch == s.epoch && s.workers[w].phase.ResolvingEffect?
    && s.workers[w].phase.attempt.node == node && s.workers[w].phase.attempt.effect == effect
    && s.workers[w].phase.result.Declined?
  }

  /** The log already rules out a further claim on this effect. */
  ghost predicate Spent(state: RunState, node: Identifier, effect: Identifier) {
    InDoubt(state, node, effect) || (node, effect) in state.completed || (node, effect) in state.uncertain
  }

  ghost predicate Exposed(s: System, node: Identifier, effect: Identifier) {
    (exists i :: Landed(s, i, node, effect)) || (exists w :: Poised(s, w, node, effect))
  }

  ghost predicate OnceInv(s: System, node: Identifier, effect: Identifier)
    requires s.log != []
  {
    && (forall i, j :: Landed(s, i, node, effect) && Landed(s, j, node, effect) ==> i == j)
    && (forall i, w :: Landed(s, i, node, effect) ==> !Poised(s, w, node, effect))
    && (forall v, w :: Poised(s, v, node, effect) && Poised(s, w, node, effect) ==> v == w)
    && (Exposed(s, node, effect) ==> Spent(Core(s), node, effect))
    && (forall w :: Declining(s, w, node, effect) ==> !Exposed(s, node, effect))
  }

  lemma OnceFrame(s: System, t: System, node: Identifier, effect: Identifier)
    requires s.log != [] && t.log != [] && OnceInv(s, node, effect)
    requires forall i :: Landed(t, i, node, effect) <==> Landed(s, i, node, effect)
    requires forall w :: Poised(t, w, node, effect) ==> Poised(s, w, node, effect)
    requires forall w :: Declining(t, w, node, effect) ==> Declining(s, w, node, effect)
    requires Exposed(s, node, effect) && Spent(Core(s), node, effect) ==> Spent(Core(t), node, effect)
    ensures OnceInv(t, node, effect)
  {
  }

  /** Only abandoning the effect itself lets it be claimed again. */
  lemma SpentPersists(
    config: Config, state: RunState, event: RunEvent, at: Time, node: Identifier, effect: Identifier)
    requires Good(config, state) && Permitted(config, state, event) && Spent(state, node, effect)
    requires !(event.EffectAbandoned? && event.node == node && event.effect == effect)
    requires ApplyEvent(state, event, at).Ok?
    ensures Spent(ApplyEvent(state, event, at).value, node, effect)
  {
    hide Admitted, LoopsOk, HistoryOk, EndOk, MayComplete, MayFail, PendingCompensations, AttemptOk;
  }

  lemma CoreAfterAppend(config: Config, s: System, t: System, node: Identifier, effect: Identifier)
    requires Inv(config, s) && Inv(config, t)
    requires |t.log| == |s.log| + 1 && t.log[..|s.log|] == s.log
    requires Spent(Core(s), node, effect)
    requires var event := t.log[|s.log|].event;
             && !(event.EffectAbandoned? && event.node == node && event.effect == effect)
             && (Broken(t).None? ==> Permitted(config, Core(s), event))
    ensures Spent(Core(t), node, effect)
  {
    var recorded := t.log[|s.log|];
    assert t.log == s.log + [recorded];
    ScanAppend(s.log, recorded);
    hide Good, Permitted, ApplyEvent, WorkerInv;
    if Broken(t).None? {
      SpentPersists(config, Core(s), recorded.event, recorded.at, node, effect);
    }
  }

  /** An effect that must not be repeated is claimed only while nothing rules the claim out. */
  lemma ClaimStartsUnspent(config: Config, s: System, w: WorkerId)
    requires Inv(config, s) && w in s.workers && s.workers[w].epoch == s.epoch
    requires s.workers[w].phase.ClaimingEffect?
    requires MustNotRepeat(config, s.workers[w].phase.attempt.node, s.workers[w].phase.attempt.effect)
    ensures Broken(s).None?
    ensures !Spent(Core(s), s.workers[w].phase.attempt.node, s.workers[w].phase.attempt.effect)
  {
    hide LogInv, AttemptOk, Evidence;
    assert WorkerInv(config, s, s.workers[w]);
  }

  lemma ClaimSpends(config: Config, s: System, w: WorkerId, at: Time)
    requires Inv(config, s) && w in s.workers && s.workers[w].epoch == s.epoch
    requires s.workers[w].phase.ClaimingEffect? && Broken(s).None?
    ensures DoAppend(s, w, at).log != []
    ensures Spent(Core(DoAppend(s, w, at)), s.workers[w].phase.attempt.node, s.workers[w].phase.attempt.effect)
  {
    var t := DoAppend(s, w, at);
    AppendKeepsInv(config, s, w, at);
    PendingOfOwner(config, s, w, at);
    hide LogInv, Evidence, AttemptOk, Permitted, Broken, Core, ClaimOk, RouteNames, Fold, OwesFirst;
    assert WorkerInv(config, t, t.workers[w]);
    assert t.workers[w].phase.PerformingEffect?;
  }

  /** What the owner appends is permitted, unless it breaks the log. */
  lemma PendingOfOwner(config: Config, s: System, w: WorkerId, at: Time)
    requires Inv(config, s) && w in s.workers && s.workers[w].epoch == s.epoch
    requires PendingEvent(s.workers[w].phase).Some?
    ensures var t := DoAppend(s, w, at);
            var event := PendingEvent(s.workers[w].phase).value;
            && t.log == s.log + [RecordedEvent(|s.log|, s.epoch, at, event)]
            && (Broken(t).None? ==> Permitted(config, Core(s), event))
            && (Broken(s).None? && !s.workers[w].phase.OpeningNode? ==> Broken(t).None?)
  {
    var worker := s.workers[w];
    var recorded := RecordedEvent(|s.log|, s.epoch, at, PendingEvent(worker.phase).value);
    hide Good, Permitted, PhaseOk, Apply, ApplyEvent, PendingEvent;
    assert WorkerInv(config, s, worker);
    ScanAppend(s.log, recorded);
    if Broken(s).None? {
      if worker.phase.OpeningNode? && worker.phase.node in Core(s).running {
        OpeningBreaks(config, Core(s), worker.phase);
        AppendBreaks(config, s, recorded);
      } else {
        PendingIsPermitted(config, Core(s), worker.phase);
        AppendToUnbroken(config, s, recorded);
      }
    }
  }

  lemma AppendPhases(phase: Phase, position: nat)
    requires PendingEvent(phase).Some?
    ensures PhaseAfterAppend(phase, position).PerformingEffect? ==>
      phase.ClaimingEffect? && PhaseAfterAppend(phase, position).attempt == phase.attempt
    ensures !PhaseAfterAppend(phase, position).ResolvingEffect?
    ensures PendingEvent(phase).value.EffectAbandoned? && !phase.Appending? ==>
      && phase.ResolvingEffect? && phase.result.Declined?
      && phase.attempt.node == PendingEvent(phase).value.node
      && phase.attempt.effect == PendingEvent(phase).value.effect
  {
  }

  /** Claiming the effect poises exactly one worker, and rules out every further claim. */
  lemma ClaimKeepsOnce(config: Config, s: System, w: WorkerId, at: Time)
    requires Inv(config, s) && w in s.workers && s.workers[w].epoch == s.epoch
    requires s.workers[w].phase.ClaimingEffect?
    requires var attempt := s.workers[w].phase.attempt;
             MustNotRepeat(config, attempt.node, attempt.effect) && OnceInv(s, attempt.node, attempt.effect)
    ensures var t := DoAppend(s, w, at);
            t.log != [] && OnceInv(t, s.workers[w].phase.attempt.node, s.workers[w].phase.attempt.effect)
  {
    var t := DoAppend(s, w, at);
    var node, effect := s.workers[w].phase.attempt.node, s.workers[w].phase.attempt.effect;
    hide Inv, Spent, MustNotRepeat, Core, Broken, OnceInv, PendingEvent;
    ClaimStartsUnspent(config, s, w);
    ClaimSpends(config, s, w, at);
    OnlyOneOwner(config, s, w);
    UnspentIsUnexposed(s, node, effect);
    assert forall i :: Landed(t, i, node, effect) ==> Landed(s, i, node, effect);
    assert forall v :: v != w && Poised(t, v, node, effect) ==> Poised(s, v, node, effect);
    OnePoised(t, w, node, effect);
  }

  lemma UnspentIsUnexposed(s: System, node: Identifier, effect: Identifier)
    requires s.log != [] && OnceInv(s, node, effect)
    ensures Exposed(s, node, effect) ==> Spent(Core(s), node, effect)
    ensures forall w :: Declining(s, w, node, effect) ==> !Exposed(s, node, effect)
  {
    hide Spent, Core;
  }

  lemma OnePoised(s: System, w: WorkerId, node: Identifier, effect: Identifier)
    requires s.log != [] && Spent(Core(s), node, effect)
    requires forall i :: !Landed(s, i, node, effect)
    requires forall v :: Poised(s, v, node, effect) ==> v == w
    requires forall v :: !Declining(s, v, node, effect)
    ensures OnceInv(s, node, effect)
  {
    hide Spent, Core;
  }

  lemma OnlyOneOwner(config: Config, s: System, w: WorkerId)
    requires Inv(config, s) && w in s.workers && s.workers[w].epoch == s.epoch
    ensures forall v :: v in s.workers && v != w ==> s.workers[v].epoch != s.epoch
  {
    hide LogInv, WorkerInv;
  }

  /** Any other append of the owner's leaves the effect as spent as it was. */
  lemma OtherAppendKeepsOnce(config: Config, s: System, w: WorkerId, at: Time, node: Identifier, effect: Identifier)
    requires Inv(config, s) && OnceInv(s, node, effect)
    requires w in s.workers && s.workers[w].epoch == s.epoch && PendingEvent(s.workers[w].phase).Some?
    requires var phase := s.workers[w].phase;
             !(phase.ClaimingEffect? && phase.attempt.node == node && phase.attempt.effect == effect)
    ensures var t := DoAppend(s, w, at); t.log != [] && OnceInv(t, node, effect)
  {
    var t := DoAppend(s, w, at);
    var phase := s.workers[w].phase;
    hide Inv, Spent, PendingEvent, PhaseAfterAppend, Permitted, Core, Broken, OnceInv;
    UnspentIsUnexposed(s, node, effect);
    AppendPhases(phase, |s.log|);
    PendingOfOwner(config, s, w, at);
    if Exposed(s, node, effect) {
      assert !Declining(s, w, node, effect);
      NotAbandoning(config, s, w, node, effect);
      AppendKeepsInv(config, s, w, at);
      CoreAfterAppend(config, s, t, node, effect);
    }
    OnceFrame(s, t, node, effect);
  }

  lemma NotAbandoning(config: Config, s: System, w: WorkerId, node: Identifier, effect: Identifier)
    requires Inv(config, s) && w in s.workers && s.workers[w].epoch == s.epoch
    requires PendingEvent(s.workers[w].phase).Some? && !Declining(s, w, node, effect)
    ensures var event := PendingEvent(s.workers[w].phase).value;
            !(event.EffectAbandoned? && event.node == node && event.effect == effect)
  {
    hide LogInv, OwnerInv, AttemptOk, Good, Fold;
    assert WorkerInv(config, s, s.workers[w]);
  }

  /** What answering a signal appends: a resumption, permitted unless the run has ended. */
  lemma SignalAppends(config: Config, s: System, w: WorkerId, signal: Signal)
    requires Inv(config, s) && DoSignal(s, w, signal) != s
    ensures var t := DoSignal(s, w, signal);
            && t.calls == s.calls && t.epoch == s.epoch
            && w in s.workers && t.workers == s.workers[w := s.workers[w].(phase := Ready)]
            && |t.log| == |s.log| + 1 && t.log[..|s.log|] == s.log
            && t.log[|s.log|].event.Resumed?
            && (Broken(t).None? ==> Permitted(config, Core(s), t.log[|s.log|].event))
  {
    var t := DoSignal(s, w, signal);
    var worker := s.workers[w];
    hide Good, Permitted, Evidence, Fold, ApplyEvent, PhaseOk;
    assert WorkerInv(config, s, worker);
    OwnerSeesCore(config, s, worker);
    ResumptionIsPermitted(config, Core(s), Resume(Core(s).waitingOn, signal, worker.now).value);
    hide Inv, Core, Broken, Resume, WorkerInv;
    if Core(s).status.IsTerminal() {
      BrokenAtTheEnd(config, s, t);
    }
  }

  /** A resumption, whether or not it breaks the log, leaves every effect as spent as it was. */
  lemma SignalKeepsOnce(config: Config, s: System, w: WorkerId, signal: Signal, node: Identifier, effect: Identifier)
    requires Inv(config, s) && OnceInv(s, node, effect)
    ensures DoSignal(s, w, signal).log != [] && OnceInv(DoSignal(s, w, signal), node, effect)
  {
    var t := DoSignal(s, w, signal);
    hide Inv, Spent, OnceInv, DoSignal, Core, Broken, Permitted;
    HasLog(config, s);
    if t != s {
      SignalAppends(config, s, w, signal);
      UnspentIsUnexposed(s, node, effect);
      if Exposed(s, node, effect) {
        SignalKeepsInv(config, s, w, signal);
        CoreAfterAppend(config, s, t, node, effect);
      }
      OnceFrame(s, t, node, effect);
    }
  }

  lemma HasLog(config: Config, s: System)
    requires Inv(config, s)
    ensures s.log != [] && forall w :: w in s.workers ==> s.workers[w].epoch <= s.epoch
  {
    hide LogInv, OwnerInv, Evidence;
    assert forall w :: w in s.workers ==> WorkerInv(config, s, s.workers[w]);
  }

  lemma ResumptionIsPermitted(config: Config, state: RunState, event: RunEvent)
    requires event.Resumed? && state.waitingOn == Some(event.wait)
    ensures Permitted(config, state, event) <==> !state.status.IsTerminal()
  {
  }

  /** An append after the run has ended never folds. */
  lemma BrokenAtTheEnd(config: Config, s: System, t: System)
    requires s.log != [] && Core(s).status.IsTerminal() && |t.log| == |s.log| + 1 && t.log[..|s.log|] == s.log
    ensures Broken(t).Some?
  {
    assert t.log == s.log + [t.log[|s.log|]];
    ScanAppend(s.log, t.log[|s.log|]);
  }

  /** The steps that neither write the log nor call an effect's far side. */
  lemma QuietStepKeepsOnce(config: Config, s: System, step: Step, node: Identifier, effect: Identifier)
    requires s.log != [] && OnceInv(s, node, effect)
    requires forall v :: v in s.workers ==> s.workers[v].epoch <= s.epoch
    requires !step.Append? && !step.AnswerSignal? && !step.PerformIt?
    ensures Do(config, s, step).log == s.log && OnceInv(Do(config, s, step), node, effect)
  {
    var t := Do(config, s, step);
    hide OnceInv, Spent, Begin, Decide, Fold, ProjectedStatus, ScanLog;
    if step.DecideNow? && t != s && step.worker in t.workers {
      var worker := s.workers[step.worker];
      var state := Fold(worker.seen).value;
      BeginStartsBeforeTheExecutor(config, state, Decide(config.definition, state, worker.now), worker.now, step.identity);
    }
    assert forall i :: Landed(t, i, node, effect) <==> Landed(s, i, node, effect);
    OnceFrame(s, t, node, effect);
  }

  /** The far side is asked: the one poised worker becomes the one request that may have landed. */
  lemma PerformKeepsOnce(config: Config, s: System, w: WorkerId, result: EffectOutcome, node: Identifier, effect: Identifier)
    requires s.log != [] && OnceInv(s, node, effect)
    ensures DoEffect(s, w, result).log == s.log && OnceInv(DoEffect(s, w, result), node, effect)
  {
    var t := DoEffect(s, w, result);
    hide Spent, ScanLog;
    var last := |s.calls|;
    assert forall i :: i != last ==> (Landed(t, i, node, effect) <==> Landed(s, i, node, effect));
    assert forall v :: v != w ==> (Poised(t, v, node, effect) <==> Poised(s, v, node, effect));
    if !Poised(s, w, node, effect) {
      OnceFrame(s, t, node, effect);
    } else {
      assert Exposed(s, node, effect);
      assert forall v :: !Poised(t, v, node, effect);
      assert forall i :: Landed(t, i, node, effect) ==> i == last;
      assert Declining(t, w, node, effect) ==> !Landed(t, last, node, effect);
      assert forall v :: v != w && Declining(t, v, node, effect) ==> Declining(s, v, node, effect);
    }
  }

  lemma StepKeepsOnce(config: Config, s: System, step: Step, node: Identifier, effect: Identifier)
    requires Inv(config, s) && OnceInv(s, node, effect) && MustNotRepeat(config, node, effect)
    ensures Do(config, s, step).log != [] && OnceInv(Do(config, s, step), node, effect)
  {
    hide Inv, OnceInv, MustNotRepeat, DoAppend, DoSignal, DoDecide, DoEffect, PendingEvent;
    HasLog(config, s);
    match step
    case Append(w, at) => AppendStepKeepsOnce(config, s, w, StampFor(s, w, at), node, effect);
    case AnswerSignal(w, signal) => SignalKeepsOnce(config, s, w, signal, node, effect);
    case PerformIt(w, result) => PerformKeepsOnce(config, s, w, result, node, effect);
    case _ => QuietStepKeepsOnce(config, s, step, node, effect);
  }

  lemma AppendStepKeepsOnce(config: Config, s: System, w: WorkerId, at: Time, node: Identifier, effect: Identifier)
    requires Inv(config, s) && OnceInv(s, node, effect) && MustNotRepeat(config, node, effect)
    ensures DoAppend(s, w, at).log != [] && OnceInv(DoAppend(s, w, at), node, effect)
  {
    hide Inv, OnceInv, MustNotRepeat, PendingEvent, ScanLog, Spent;
    HasLog(config, s);
    var t := DoAppend(s, w, at);
    if t != s {
      var phase := s.workers[w].phase;
      if s.workers[w].epoch != s.epoch {
        OnceFrame(s, t, node, effect);
      } else if phase.ClaimingEffect? && phase.attempt.node == node && phase.attempt.effect == effect {
        ClaimKeepsOnce(config, s, w, at);
      } else {
        OtherAppendKeepsOnce(config, s, w, at, node, effect);
      }
    }
  }

  lemma {:induction false} RunKeepsOnce(config: Config, s: System, steps: seq<Step>, node: Identifier, effect: Identifier)
    requires Inv(config, s) && s.log != [] && OnceInv(s, node, effect) && MustNotRepeat(config, node, effect)
    ensures Run(config, s, steps).log != [] && OnceInv(Run(config, s, steps), node, effect)
  {
    hide Inv, OnceInv, MustNotRepeat, Do;
    if steps != [] {
      RunKeepsOnce(config, s, steps[..|steps| - 1], node, effect);
      RunKeepsInv(config, s, steps[..|steps| - 1]);
      StepKeepsOnce(config, Run(config, s, steps[..|steps| - 1]), steps[|steps| - 1], node, effect);
    }
  }

  /**
   An effect that declares no way to repeat it safely is requested at most once without an explicit
   refusal, in every interleaving of every number of workers.
   */
  lemma UnrepeatableEffectLandsAtMostOnce(
    config: Config, admission: RunEvent, at: Time, steps: seq<Step>,
    node: Identifier, effect: Identifier, i: nat, j: nat)
    requires admission.Admission? && MustNotRepeat(config, node, effect)
    requires var s := After(config, admission, at, steps); Landed(s, i, node, effect) && Landed(s, j, node, effect)
    ensures i == j
  {
    hide Inv, MustNotRepeat, Run, Do;
    CreatedIsOk(config, admission, at);
    RunKeepsOnce(config, Created(admission, at), steps, node, effect);
  }
}
