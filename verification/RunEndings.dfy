/**
 How runs end, said on their logs: what a cancelled, a failed and a completed run leave behind, whichever
 workers brought it there.
 */
module RunEndings {
  import opened Wrappers
  import opened Identifiers
  import opened Definition
  import opened RunEvents
  import opened RunStates
  import opened Stopping
  import opened DecisionCore
  import opened RunProtocol
  import opened GraphWorkers
  import opened RunLogs
  import opened GraphWorkerSafety
  import opened GraphWorkerTheorems
  import Readings = LogReadings
  import opened RunOutcomes

  // ---- Debts, on the log. ----

  predicate FinalizedAt(log: seq<RecordedEvent>, p: nat, done: EffectRef) {
    p < |log| && log[p].event.EffectFinalized? && (log[p].event.node, log[p].event.effect) == done
  }

  /** The definition says how the effect is undone. */
  predicate UndoneBy(config: Config, done: EffectRef, route: Identifier) {
    var declared := config.definition.graph.EffectOf(done.0, done.1);
    declared.Some? && declared.value.reversibility == Reversible(route)
  }

  ghost predicate UndoneIn(log: seq<RecordedEvent>, done: EffectRef, route: Identifier) {
    exists p :: (
      && 0 <= p < |log| && log[p].event.Compensated?
      && (log[p].event.node, log[p].event.effect) == done && log[p].event.compensation == route)
  }

  /** Every reversible effect that was finalized from a position on was undone by its declared route. */
  ghost predicate AllUndone(config: Config, log: seq<RecordedEvent>, from: nat) {
    forall p, done, route :: from <= p && FinalizedAt(log, p, done) && UndoneBy(config, done, route) ==>
      UndoneIn(log, done, route)
  }

  /** What is recorded as undone was undone by its declared route. */
  ghost predicate RoutesKept(config: Config, log: seq<RecordedEvent>) {
    forall p :: 0 <= p < |log| && log[p].event.Compensated? ==>
      UndoneBy(config, (log[p].event.node, log[p].event.effect), log[p].event.compensation)
  }

  lemma {:induction false} FirstOwedIsDeclared(config: Config, state: RunState, order: seq<EffectRef>)
    requires OwedFor(config.definition, state, order) != []
    ensures var owed := OwedFor(config.definition, state, order)[0]; UndoneBy(config, (owed.node, owed.effect), owed.route)
  {
    if Owed(config.definition, state, order[|order| - 1]).None? {
      FirstOwedIsDeclared(config, state, order[..|order| - 1]);
    }
  }

  lemma LawKeepsRoutes(config: Config, log: seq<RecordedEvent>)
    requires Fold(log).Ok? && Lawful(config, log)
    ensures RoutesKept(config, log)
  {
    hide Fold, Lawful, UndoneBy;
    forall p | 0 <= p < |log| && log[p].event.Compensated?
      ensures UndoneBy(config, (log[p].event.node, log[p].event.effect), log[p].event.compensation)
    {
      StartsAdmitted(log);
      FoldsUpTo(log, p + 1);
      LawfulAt(config, log, p);
      FirstOwedIsDeclared(config, Fold(log[..p]).value, Fold(log[..p]).value.finalizedOrder);
    }
  }

  lemma StartsAdmitted(log: seq<RecordedEvent>)
    requires Fold(log).Ok?
    ensures log != [] && log[0].event.Admission?
  {
  }

  lemma {:induction false} CountedIsThere(log: seq<RecordedEvent>, hit: Readings.Test) returns (p: nat)
    requires Readings.Count(log, hit) > 0
    ensures p < |log| && hit(log[p].event)
  {
    if hit(log[|log| - 1].event) {
      p := |log| - 1;
    } else {
      p := CountedIsThere(log[..|log| - 1], hit);
    }
  }

  lemma {:induction false} ThereIsCounted(log: seq<RecordedEvent>, hit: Readings.Test, p: nat)
    requires p < |log| && hit(log[p].event)
    ensures Readings.Count(log, hit) > 0
  {
    if p < |log| - 1 {
      ThereIsCounted(log[..|log| - 1], hit, p);
    }
  }

  /** An effect that was finalized, can be undone, and owes nothing, was undone. */
  lemma NothingOwedMeansUndone(
    config: Config, log: seq<RecordedEvent>, state: RunState, p: nat, done: EffectRef, route: Identifier)
    requires Readings.Reads(log, state) && RoutesKept(config, log)
    requires FinalizedAt(log, p, done) && UndoneBy(config, done, route)
    requires Owed(config.definition, state, done).None?
    ensures UndoneIn(log, done, route)
  {
    hide Readings.Count;
    assert Readings.EffectRead(log, state, done);
    var q := CountedIsThere(log, Readings.Undoes(done));
    assert Readings.Undoes(done)(log[q].event);
    assert UndoneBy(config, done, log[q].event.compensation);
  }

  lemma FinalizedIsListed(log: seq<RecordedEvent>, state: RunState, p: nat, done: EffectRef)
    requires Readings.Reads(log, state) && FinalizedAt(log, p, done)
    ensures done in state.finalizedOrder
  {
    hide Readings.Count;
    assert Readings.EffectRead(log, state, done);
    ThereIsCounted(log, Readings.Finalizes(done), p);
  }

  lemma SettledMeansUndone(config: Config, log: seq<RecordedEvent>, state: RunState)
    requires Readings.Reads(log, state) && RoutesKept(config, log)
    requires PendingCompensations(config.definition, state) == []
    ensures AllUndone(config, log, 0)
  {
    hide Readings.Reads, RoutesKept, FinalizedAt, UndoneBy, UndoneIn;
    forall p, done, route | 0 <= p && FinalizedAt(log, p, done) && UndoneBy(config, done, route)
      ensures UndoneIn(log, done, route)
    {
      FinalizedIsListed(log, state, p, done);
      NothingOwedMeansUndone(config, log, state, p, done, route);
    }
  }

  /** Where the finalizations of a log stand: those after a position come after its place in their order. */
  lemma {:induction false} PlaceOf(log: seq<RecordedEvent>, i: nat) returns (p: nat)
    requires i < |Finalizations(log)|
    ensures FinalizedAt(log, p, Finalizations(log)[i])
    ensures forall q, done :: p < q && FinalizedAt(log, q, done) ==>
      exists j :: i < j < |Finalizations(log)| && Finalizations(log)[j] == done
  {
    var before, last := log[..|log| - 1], log[|log| - 1].event;
    var earlier := Finalizations(before);
    if i == |earlier| {
      p := |log| - 1;
    } else {
      p := PlaceOf(before, i);
      assert FinalizedAt(log, p, Finalizations(log)[i]);
      forall q, done | p < q && FinalizedAt(log, q, done)
        ensures exists j :: i < j < |Finalizations(log)| && Finalizations(log)[j] == done
      {
        if q < |before| {
          assert FinalizedAt(before, q, done);
          var j :| i < j < |earlier| && earlier[j] == done;
          assert Finalizations(log)[j] == done;
        } else {
          assert Finalizations(log)[|earlier|] == done;
        }
      }
    }
  }

  /** The newest finalization that could be undone and was not. */
  ghost predicate StillStands(config: Config, log: seq<RecordedEvent>, p: nat, done: EffectRef) {
    && FinalizedAt(log, p, done)
    && (exists route :: UndoneBy(config, done, route) && !UndoneIn(log, done, route))
    && AllUndone(config, log, p + 1)
  }

  lemma FirstDebtStands(config: Config, log: seq<RecordedEvent>, state: RunState) returns (p: nat)
    requires Fold(log) == Ok(state) && RoutesKept(config, log)
    requires PendingCompensations(config.definition, state) != []
    ensures var owed := PendingCompensations(config.definition, state)[0]; StillStands(config, log, p, (owed.node, owed.effect))
  {
    Readings.FoldReadsTheLog(log);
    FoldTracksFinalizations(log);
    var owed := PendingCompensations(config.definition, state)[0];
    var i := NewestOwedFirst(config.definition, state, state.finalizedOrder);
    p := PlaceOf(log, i);
    var done := state.finalizedOrder[i];
    FirstOwedIsDeclared(config, state, state.finalizedOrder);
    StandsUndone(log, state, done, owed.route);
    hide Fold, Readings.Reads, RoutesKept, FinalizedAt, UndoneIn, Finalizations;
    forall q, later, route | p + 1 <= q && FinalizedAt(log, q, later) && UndoneBy(config, later, route)
      ensures UndoneIn(log, later, route)
    {
      NothingOwedMeansUndone(config, log, state, q, later, route);
    }
  }

  lemma StandsUndone(log: seq<RecordedEvent>, state: RunState, done: EffectRef, route: Identifier)
    requires Readings.Reads(log, state) && done !in state.compensated
    ensures !UndoneIn(log, done, route)
  {
    hide Readings.Count;
    assert Readings.EffectRead(log, state, done);
    if UndoneIn(log, done, route) {
      var p :| 0 <= p < |log| && log[p].event.Compensated? && (log[p].event.node, log[p].event.effect) == done;
      ThereIsCounted(log, Readings.Undoes(done), p);
      assert false;
    }
  }

  /**
   Effects are undone newest first, each by its declared route, and only what was finalized: whatever can be
   undone and was finalized after it is undone already.
   */
  lemma UndoingIsNewestFirst(config: Config, admission: RunEvent, at: Time, steps: seq<Step>, p: nat) returns (q: nat)
    requires admission.Admission?
    requires var log := After(config, admission, at, steps).log;
             Fold(log).Ok? && 1 <= p < |log| && log[p].event.Compensated?
    ensures var log := After(config, admission, at, steps).log;
            var done := (log[p].event.node, log[p].event.effect);
            q < p && UndoneBy(config, done, log[p].event.compensation) && StillStands(config, log[..p], q, done)
  {
    hide Run, Fold, StillStands, UndoneBy, RoutesKept, Lawful;
    var log := After(config, admission, at, steps).log;
    LogObeysTheLaw(config, admission, at, steps);
    LawKeepsRoutes(config, log);
    FoldsUpTo(log, p + 1);
    LawfulAt(config, log, p);
    RoutesKeptBefore(config, log, p);
    q := FirstDebtStands(config, log[..p], Fold(log[..p]).value);
    StandsWithin(config, log[..p], q, (log[p].event.node, log[p].event.effect));
  }

  lemma RoutesKeptBefore(config: Config, log: seq<RecordedEvent>, p: nat)
    requires RoutesKept(config, log) && p < |log|
    ensures RoutesKept(config, log[..p])
    ensures log[p].event.Compensated? ==>
      UndoneBy(config, (log[p].event.node, log[p].event.effect), log[p].event.compensation)
  {
  }

  lemma StandsWithin(config: Config, log: seq<RecordedEvent>, q: nat, done: EffectRef)
    requires StillStands(config, log, q, done)
    ensures q < |log|
  {
  }

  // ---- Endings. ----

  predicate NoOpenClaim(log: seq<RecordedEvent>) {
    forall p :: 0 <= p < |log| ==> !Readings.IsOpen(log, p)
  }

  /** Everything the definition asks for was done, and nothing is left in doubt. */
  ghost predicate DoneIn(config: Config, log: seq<RecordedEvent>) {
    && (forall node :: node in config.definition.graph.nodes ==> Readings.OutputsIn(log, node.id).Some?)
    && (forall node :: Readings.StartedIn(log, node).None?)
    && NoOpenClaim(log)
    && (forall p :: 0 <= p < |log| ==> !log[p].event.EffectUncertain? && !log[p].event.CancellationRequested?)
    && (Admitted(config.definition) ==>
          forall region :: region in config.definition.graph.regions && region.kind.Loop? ==>
            Readings.StoppedIn(log, region.id) == Some(ConditionFalse))
  }

  lemma {:induction false} NoClaimsMeansNoneOpen(log: seq<RecordedEvent>, n: nat)
    requires n <= |log| && Readings.OpenClaims(log, n) == []
    ensures forall p :: 0 <= p < n ==> !Readings.IsOpen(log, p)
  {
    if n > 0 {
      NoClaimsMeansNoneOpen(log, n - 1);
    }
  }

  lemma CompleteMeansDone(config: Config, log: seq<RecordedEvent>, state: RunState)
    requires Readings.Reads(log, state) && MayComplete(config, state)
    ensures DoneIn(config, log)
  {
    NoClaimsMeansNoneOpen(log, |log|);
    hide Readings.OutputsIn, Readings.StartedIn, Readings.StoppedIn, Readings.IsOpen, Readings.Count, Admitted;
    forall node
      ensures Readings.OutputsIn(log, node).Some? <==> state.HasFinished(node)
      ensures Readings.StartedIn(log, node).None?
    {
      assert Readings.NodeRead(log, state, node, "");
    }
    forall region
      ensures Readings.StoppedIn(log, region) == state.LoopOf(region).stopped
    {
      assert Readings.LoopRead(log, state, region);
    }
    forall p | 0 <= p < |log|
      ensures !log[p].event.EffectUncertain? && !log[p].event.CancellationRequested?
    {
      NoneRecorded(log, state, p);
    }
  }

  lemma NoneRecorded(log: seq<RecordedEvent>, state: RunState, p: nat)
    requires Readings.Reads(log, state) && state.uncertain == [] && state.cancelRequested.None? && p < |log|
    ensures !log[p].event.EffectUncertain? && !log[p].event.CancellationRequested?
  {
    hide Readings.Count;
    var event := log[p].event;
    if event.EffectUncertain? {
      assert Readings.EffectRead(log, state, (event.node, event.effect));
      ThereIsCounted(log, Readings.GivesUp((event.node, event.effect)), p);
      assert false;
    } else if event.CancellationRequested? {
      SomeLatest(log, Readings.AsksToCancel(), p);
      assert false;
    }
  }

  lemma {:induction false} SomeLatest(log: seq<RecordedEvent>, hit: Readings.Test, p: nat)
    requires p < |log| && hit(log[p].event)
    ensures Readings.Latest(log, hit, Readings.Never()).Some?
  {
    if p < |log| - 1 {
      SomeLatest(log[..|log| - 1], hit, p);
    }
  }

  /**
   A run that ended, ended clean. A cancelled run was asked to cancel and has undone everything that can be
   undone; a failed run has too, or failed because undoing the newest of them did not succeed; a completed run
   has finished every node, stopped every loop on its condition and left no effect in doubt.
   */
  lemma RunsEndClean(config: Config, admission: RunEvent, at: Time, steps: seq<Step>)
    requires admission.Admission? && Fold(After(config, admission, at, steps).log).Ok?
    ensures var log := After(config, admission, at, steps).log;
            && log != []
            && match log[|log| - 1].event
               case Cancelled(who) => NoOpenClaim(log) && AllUndone(config, log, 0) && Readings.CancelIn(log) == Some(who)
               case Failed(reason) =>
                 && NoOpenClaim(log)
                 && (|| AllUndone(config, log, 0)
                     || (reason.EffectDoubt? && exists p :: StillStands(config, log, p, (reason.node, reason.effect))))
               case Completed(_) => DoneIn(config, log)
               case _ => true
  {
    hide Run, Fold, AllUndone, StillStands, DoneIn, NoOpenClaim, Readings.Reads, RoutesKept, Lawful;
    var log := After(config, admission, at, steps).log;
    LogObeysTheLaw(config, admission, at, steps);
    StartsAdmitted(log);
    LawKeepsRoutes(config, log);
    Readings.FoldReadsTheLog(log);
    EndedCleanly(config, admission, at, steps);
    EndingOf(config, log);
  }

  /** The state a run's log folds to keeps the law of endings. */
  lemma EndedCleanly(config: Config, admission: RunEvent, at: Time, steps: seq<Step>)
    requires admission.Admission? && Fold(After(config, admission, at, steps).log).Ok?
    ensures EndOk(config, Fold(After(config, admission, at, steps).log).value)
  {
    hide WorkerInv, Run, Fold, ScanLog, EndOk, ClaimsOk, HistoryOk, LoopsOk;
    Reached(config, admission, at, steps);
    ScanIsFold(After(config, admission, at, steps).log);
  }

  lemma EndingOf(config: Config, log: seq<RecordedEvent>)
    requires Fold(log).Ok? && Lawful(config, log) && RoutesKept(config, log) && EndOk(config, Fold(log).value)
    ensures log != []
    ensures match log[|log| - 1].event
            case Cancelled(who) => NoOpenClaim(log) && AllUndone(config, log, 0) && Readings.CancelIn(log) == Some(who)
            case Failed(reason) =>
              && NoOpenClaim(log)
              && (|| AllUndone(config, log, 0)
                  || (reason.EffectDoubt? && exists p :: StillStands(config, log, p, (reason.node, reason.effect))))
            case Completed(_) => DoneIn(config, log)
            case _ => true
  {
    var state := Fold(log).value;
    LastSets(config, log);
    Readings.FoldReadsTheLog(log);
    hide Fold, AllUndone, StillStands, DoneIn, RoutesKept, Lawful, Readings.CancelIn, Readings.IsOpen;
    if state.outstanding == [] {
      NoClaimsMeansNoneOpen(log, |log|);
    }
    hide NoOpenClaim;
    match log[|log| - 1].event
    case Cancelled(_) => SettledMeansUndone(config, log, state);
    case Failed(reason) =>
      if PendingCompensations(config.definition, state) == [] {
        SettledMeansUndone(config, log, state);
      } else {
        var p := FirstDebtStands(config, log, state);
      }
    case Completed(_) => CompleteMeansDone(config, log, state);
    case _ =>
  }

  /** The last event of a log sets its status and, if it fails the run, the reason. */
  lemma {:induction false} LastSets(config: Config, log: seq<RecordedEvent>)
    requires Fold(log).Ok? && Lawful(config, log)
    ensures log != []
    ensures var state, event := Fold(log).value, log[|log| - 1].event;
            && (event.Cancelled? ==> state.status.Cancel? && state.cancelRequested == Some(event.who))
            && (event.Failed? ==> state.status.Failure? && state.failure == Some(event.failed))
            && (event.Completed? ==> state.status.Complete?)
  {
    if |log| > 1 {
      var before, last := log[..|log| - 1], log[|log| - 1];
      LawfulPrefix(config, log);
      if EndsRun(last.event) {
        EndingSets(config, Fold(before).value, last.event, last.at);
      }
    }
    hide Lawful, ApplyEvent, Permitted;
  }

  lemma EndingSets(config: Config, state: RunState, event: RunEvent, at: Time)
    requires Permitted(config, state, event) && EndsRun(event)
    ensures ApplyEvent(state, event, at).Ok?
    ensures var after := ApplyEvent(state, event, at).value;
            && (event.Cancelled? ==> after.status.Cancel? && after.cancelRequested == Some(event.who))
            && (event.Failed? ==> after.status.Failure? && after.failure == Some(event.failed))
            && (event.Completed? ==> after.status.Complete?)
  {
  }
}
