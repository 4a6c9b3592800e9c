/**
 What finished attempts say, how often a run is tried again, and when its outputs are stored, over every
 interleaving of ticks.
 */
module JobOutcomes {
  import opened Wrappers
  import JobOutputs
  import opened JobWorkers
  import opened JobAttempts

  /** An attempt is finished by the worker that holds the run's lease, for the attempt the row is on. */
  lemma OnlyTheOwnerFinishes(maxAttempts: nat, s: System, step: Step)
    ensures var u := Do(maxAttempts, s, step);
            u.finals == s.finals ||
            (&& step.Finish? && step.tick in s.ticks && s.ticks[step.tick].phase.Persisting?
             && s.row.owner == Some(s.ticks[step.tick].worker) && s.row.status.Running?
             && u.finals == s.finals +
                  [Final(s.row.attempt, s.ticks[step.tick].worker, u.row.status, s.ticks[step.tick].phase.report)]
             && u.row.owner.None? && !u.row.status.Running?)
  {
    hide Rejects;
  }

  /**
   A heartbeat decides whether a tick goes on: exactly when its worker still holds the run, and the run is
   leased or running. Then the lease is renewed and the tick moves on; otherwise it stops, and nothing else
   changes.
   */
  lemma HeartbeatsDecide(maxAttempts: nat, s: System, t: nat)
    requires t in s.ticks && (s.ticks[t].phase.Started? || s.ticks[t].phase.Executing? || s.ticks[t].phase.Returned?)
    ensures var u, phase := Do(maxAttempts, s, Heartbeat(t)), s.ticks[t].phase;
            && (t in u.ticks <==> s.row.owner == Some(s.ticks[t].worker) && s.row.status in {Leased, Running})
            && (t !in u.ticks ==> u == s.(ticks := s.ticks - {t}))
            && (t in u.ticks ==>
                  && u.row == s.row.(live := true) && u.finals == s.finals && u.ticks.Keys == s.ticks.Keys
                  && u.ticks[t].worker == s.ticks[t].worker && (forall v :: v in s.ticks && v != t ==> u.ticks[v] == s.ticks[v])
                  && (phase.Started? ==> u.ticks[t].phase == Executing(phase.attempt) && u.deeds == s.deeds)
                  && (phase.Executing? ==> u.ticks[t].phase == phase && u.deeds == s.deeds)
                  && (phase.Returned? ==>
                        u.ticks[t].phase == Persisting(phase.attempt, phase.report) && u.deeds == s.deeds + [LeaseRenewed(t)]))
  {
  }

  /**
   A run is leased exactly when it is queued, or adopted exactly when it is running under a lease that ran
   out; it goes back to the queue exactly when a lease that ran out holds it and nobody is to adopt it.
   */
  lemma LeasesAndRequeuesExactlyWhen(maxAttempts: nat, s: System, w: WorkerId, reattach: bool, preserveRunning: bool)
    requires s.leases !in s.ticks
    ensures var u := Do(maxAttempts, s, Lease(w, reattach));
            var lapsed := s.row.owner.Some? && !s.row.live;
            && (s.leases !in u.ticks ==> u == s)
            && (s.leases in u.ticks <==> s.row.status.Queued? || (reattach && s.row.status.Running? && lapsed))
            && (s.leases in u.ticks ==>
                  && u.row == Row(if s.row.status.Queued? then Leased else Running, s.row.attempt, Some(w), true)
                  && u.ticks[s.leases] ==
                       Tick(w, if s.row.status.Queued? then Starting(s.row.attempt) else Started(s.row.attempt)))
    ensures var u := Do(maxAttempts, s, Recover(preserveRunning));
            var lapsed := s.row.owner.Some? && !s.row.live;
            && (u.row != s.row <==> lapsed && (s.row.status.Leased? || (s.row.status.Running? && !preserveRunning)))
            && (u.row != s.row ==> u == s.(row := Row(Queued, s.row.attempt, None, false)))
  {
  }

  /**
   The save that starts an attempt lands exactly on a row that has not ended, whoever holds it, and its tick
   goes on either way; an attempt is finished exactly by the holder of a running row on that attempt, and its
   tick is over either way.
   */
  lemma SavesAndFinishesExactlyWhen(maxAttempts: nat, s: System, t: nat)
    requires t in s.ticks
    ensures var u, attempt := Do(maxAttempts, s, SaveStart(t)), s.ticks[t].phase.attempt + 1;
            if !s.ticks[t].phase.Starting? then u == s
            else
              && u.ticks == s.ticks[t := Tick(s.ticks[t].worker, Started(attempt))]
              && u.row == (if s.row.status in {Succeeded, Failed, Cancelled, TimedOut} then s.row
                           else Row(Running, attempt, s.row.owner, s.row.live))
              && u.finals == s.finals && u.deeds == s.deeds && u.leases == s.leases
    ensures var u, phase, worker := Do(maxAttempts, s, Finish(t)), s.ticks[t].phase, s.ticks[t].worker;
            if !phase.Persisting? then u == s
            else
              && u.ticks == s.ticks - {t} && u.deeds == s.deeds && u.leases == s.leases
              && (u.finals != s.finals <==> s.row.status.Running? && s.row.owner == Some(worker) && s.row.attempt == phase.attempt)
              && (u.finals == s.finals ==> u.row == s.row)
              && (u.finals != s.finals ==>
                    && |u.finals| == |s.finals| + 1 && u.finals[..|s.finals|] == s.finals
                    && u.row == Row(u.finals[|s.finals|].status, phase.attempt, None, false)
                    && u.finals[|s.finals|] == Final(phase.attempt, worker, u.row.status, phase.report)
                    && Reports(maxAttempts, u.finals[|s.finals|]))
  {
    hide Rejects;
  }

  /** A runner's return counts exactly for a tick that executes, and outputs are stored exactly by one that persists. */
  lemma ReturnsAndStoresExactlyWhen(maxAttempts: nat, s: System, t: nat, report: Report)
    requires t in s.ticks
    ensures var u, phase := Do(maxAttempts, s, RunnerReturns(t, report)), s.ticks[t].phase;
            u == if phase.Executing?
                 then s.(ticks := s.ticks[t := Tick(s.ticks[t].worker, Returned(phase.attempt, report))],
                         deeds := s.deeds + [RunnerReturned(t)])
                 else s
    ensures Do(maxAttempts, s, Persist(t)) ==
      if s.ticks[t].phase.Persisting? then s.(deeds := s.deeds + [OutputStored(t)]) else s
  {
  }

  /** Adopting a running attempt keeps its number, in the row and in the adopter's tick. */
  lemma AdoptionKeepsTheAttempt(maxAttempts: nat, s: System, w: WorkerId, reattach: bool)
    requires s.row.status.Running? && s.leases !in s.ticks
    ensures var u := Do(maxAttempts, s, Lease(w, reattach));
            && u.row.status.Running? && u.row.attempt == s.row.attempt
            && (s.leases in u.ticks <==> reattach && Expired(s.row))
            && (s.leases in u.ticks ==> u.ticks[s.leases] == Tick(w, Started(s.row.attempt)) && u.row.owner == Some(w))
  {
  }

  /** A finished attempt says what happened: each status stands for exactly one kind of outcome. */
  predicate Reports(maxAttempts: nat, final: Final) {
    var rejected, outcome := Rejects(final.report.artifacts), final.report.outcome;
    var failed := !rejected && (outcome.Broke? || outcome.Overran?);
    && (final.status.Succeeded? <==> !rejected && outcome.Passed?)
    && (final.status.Cancelled? <==> !rejected && outcome.Aborted?)
    && (final.status.RetryScheduled? <==> failed && final.attempt < maxAttempts)
    && (final.status.TimedOut? <==> failed && outcome.Overran? && final.attempt >= maxAttempts)
    && (final.status.Failed? <==> rejected || (failed && outcome.Broke? && final.attempt >= maxAttempts))
  }

  /** An attempt number is positive once started, and every finished attempt had its chance to retry. */
  predicate Accounted(maxAttempts: nat, s: System) {
    && (s.row.status.Running? ==> s.row.attempt >= 1)
    && (forall t :: t in s.ticks && !s.ticks[t].phase.Starting? ==> s.ticks[t].phase.attempt >= 1)
    && (forall i :: 0 <= i < |s.finals| ==> s.finals[i].attempt >= 1 && Reports(maxAttempts, s.finals[i]))
    && (IsTerminal(s.row.status) ==> s.row.owner.None? && !s.row.live)
    && (forall i :: 0 <= i < |s.finals| && IsTerminal(s.finals[i].status) ==>
          i == |s.finals| - 1 && s.row.status == s.finals[i].status)
  }

  lemma StepKeepsAccounts(maxAttempts: nat, s: System, step: Step)
    requires Accounted(maxAttempts, s)
    ensures Accounted(maxAttempts, Do(maxAttempts, s, step))
  {
    hide Rejects;
    if step.Finish? {
      FinishKeepsAccounts(maxAttempts, s, step.tick);
    } else {
      hide Reports;
    }
  }

  lemma FinishKeepsAccounts(maxAttempts: nat, s: System, t: nat)
    requires Accounted(maxAttempts, s)
    ensures Accounted(maxAttempts, DoFinish(maxAttempts, s, t))
  {
    hide Rejects;
  }

  lemma {:induction false} RunKeepsAccounts(maxAttempts: nat, steps: seq<Step>)
    ensures Accounted(maxAttempts, Run(maxAttempts, CREATED, steps))
  {
    if steps != [] {
      hide Do, Accounted;
      RunKeepsAccounts(maxAttempts, steps[..|steps| - 1]);
      StepKeepsAccounts(maxAttempts, Run(maxAttempts, CREATED, steps[..|steps| - 1]), steps[|steps| - 1]);
    }
  }

  /** In every interleaving the stored statuses report the outcomes, and an ended run is ended by its last attempt. */
  lemma FinalsReportOutcomes(maxAttempts: nat, steps: seq<Step>, i: nat)
    requires i < |Run(maxAttempts, CREATED, steps).finals|
    ensures var s := Run(maxAttempts, CREATED, steps);
            && Reports(maxAttempts, s.finals[i])
            && (IsTerminal(s.finals[i].status) ==> i == |s.finals| - 1 && s.row.status == s.finals[i].status)
  {
    hide Do, Reports;
    RunKeepsAccounts(maxAttempts, steps);
  }

  /** A run with an artifact the domain refuses ends failed and is never tried again, whatever the runner reported. */
  lemma RejectionIsFinal(maxAttempts: nat, steps: seq<Step>, more: seq<Step>, i: nat, j: nat)
    requires i < |Run(maxAttempts, CREATED, steps).finals|
    requires var artifacts := Run(maxAttempts, CREATED, steps).finals[i].report.artifacts;
             j < |artifacts| && JobOutputs.Rejection(artifacts[j]).Some?
    ensures var s := Run(maxAttempts, CREATED, steps);
            && i == |s.finals| - 1 && s.finals[i].status.Failed? && s.row.status.Failed?
            && Run(maxAttempts, s, more).row == s.row && Run(maxAttempts, s, more).finals == s.finals
  {
    RunKeepsAccounts(maxAttempts, steps);
    hide Do, JobOutputs.Rejection;
    TerminalForever(maxAttempts, Run(maxAttempts, CREATED, steps), more);
  }

  // ---- Retries. ----

  function RetriesAmong(finals: seq<Final>): nat {
    if finals == [] then 0
    else RetriesAmong(finals[..|finals| - 1]) + (if finals[|finals| - 1].status.RetryScheduled? then 1 else 0)
  }

  function RetriedAttempts(finals: seq<Final>): set<nat> {
    set i | 0 <= i < |finals| && finals[i].status.RetryScheduled? :: finals[i].attempt
  }

  /** How many finishes were of an attempt already finished. */
  function Repeats(finals: seq<Final>): nat {
    if finals == [] then 0
    else
      var before, last := finals[..|finals| - 1], finals[|finals| - 1];
      Repeats(before) + (if WasFinished(before, last.attempt) then 1 else 0)
  }

  lemma {:induction false} RetriesAreAttempts(finals: seq<Final>)
    ensures RetriesAmong(finals) <= |RetriedAttempts(finals)| + Repeats(finals)
  {
    if finals != [] {
      var before, last := finals[..|finals| - 1], finals[|finals| - 1];
      RetriesAreAttempts(before);
      if last.status.RetryScheduled? {
        assert RetriedAttempts(finals) == RetriedAttempts(before) + {last.attempt};
        if !WasFinished(before, last.attempt) {
          assert last.attempt !in RetriedAttempts(before);
        }
      } else {
        assert RetriedAttempts(finals) == RetriedAttempts(before);
      }
    }
  }

  lemma {:induction false} BoundedSet(numbers: set<nat>, bound: nat)
    requires forall n :: n in numbers ==> 1 <= n < bound
    ensures |numbers| <= if bound == 0 then 0 else bound - 1
  {
    if bound > 1 {
      BoundedSet(numbers - {bound - 1}, bound - 1);
    } else {
      assert forall n :: n !in numbers;
      assert numbers == {};
    }
  }

  /** How many steps of an interleaving restarted a finished attempt on a held row. */
  function RestartsIn(maxAttempts: nat, steps: seq<Step>): nat {
    if steps == [] then 0
    else
      var before := steps[..|steps| - 1];
      RestartsIn(maxAttempts, before)
      + (if RestartsHeld(Run(maxAttempts, CREATED, before), steps[|steps| - 1]) then 1 else 0)
  }

  /** The held row is on an attempt that may be finished once more. */
  function Pending(s: System): nat {
    if s.row.status.Running? && s.row.owner.Some? && WasFinished(s.finals, s.row.attempt) then 1 else 0
  }

  lemma StepRepeatsAtMost(maxAttempts: nat, s: System, step: Step)
    ensures var u := Do(maxAttempts, s, step);
            Repeats(u.finals) + Pending(u) <= Repeats(s.finals) + Pending(s) + (if RestartsHeld(s, step) then 1 else 0)
  {
    hide FinalStatus;
    if step.Finish? {
      FinishRepeatsAtMost(maxAttempts, s, step.tick);
    } else {
      hide Repeats;
      assert Do(maxAttempts, s, step).finals == s.finals;
    }
  }

  lemma FinishRepeatsAtMost(maxAttempts: nat, s: System, t: nat)
    ensures var u := DoFinish(maxAttempts, s, t); Repeats(u.finals) + Pending(u) <= Repeats(s.finals) + Pending(s)
  {
    hide Rejects;
    var u := DoFinish(maxAttempts, s, t);
    if u.finals != s.finals {
      assert u.finals[..|s.finals|] == s.finals;
    }
  }

  /** Each restart pays for at most one repeated finish. */
  lemma {:induction false} RestartsPayForRepeats(maxAttempts: nat, steps: seq<Step>)
    ensures var s := Run(maxAttempts, CREATED, steps);
            Repeats(s.finals) + Pending(s) <= RestartsIn(maxAttempts, steps)
  {
    if steps != [] {
      hide Do, Pending, Repeats, RestartsHeld;
      RestartsPayForRepeats(maxAttempts, steps[..|steps| - 1]);
      StepRepeatsAtMost(maxAttempts, Run(maxAttempts, CREATED, steps[..|steps| - 1]), steps[|steps| - 1]);
    }
  }

  /**
   In every interleaving a run is put back for another attempt at most one time less than the attempts it
   may have, and once more for each restart of a finished attempt on a held row.
   */
  lemma RetriesAreBounded(maxAttempts: nat, steps: seq<Step>)
    ensures RetriesAmong(Run(maxAttempts, CREATED, steps).finals) <=
      if maxAttempts <= 1 then 0 else maxAttempts - 1 + RestartsIn(maxAttempts, steps)
  {
    RunKeepsAccounts(maxAttempts, steps);
    RestartsPayForRepeats(maxAttempts, steps);
    var finals := Run(maxAttempts, CREATED, steps).finals;
    hide Run, Pending;
    RetriesAreAttempts(finals);
    BoundedSet(RetriedAttempts(finals), maxAttempts);
    if maxAttempts <= 1 {
      NoRetries(finals);
    }
  }

  lemma {:induction false} NoRetries(finals: seq<Final>)
    requires forall i :: 0 <= i < |finals| ==> !finals[i].status.RetryScheduled?
    ensures RetriesAmong(finals) == 0
  {
    if finals != [] {
      NoRetries(finals[..|finals| - 1]);
    }
  }

  /** One restart is enough for one retry too many: two attempts allowed, two retries scheduled. */
  lemma StalledSaveRetriesTooOften()
    ensures exists s :: Reachable(2, s, false) && RetriesAmong(s.finals) == 2
  {
    hide Reachable, Leads, Rejects;
    var s := StalledSaveLands(2, "a", "b", "c");
    NothingIsRejected();
    var u := HeldRowCanBeFinished(2, s, "d", Broke);
    ReachableLeads(2, s, u, false);
    assert s.finals[..0] == [] && RetriesAmong(s.finals) == 1;
    assert |u.finals| == 2 && u.finals[..1] == s.finals && u.finals[1].status.RetryScheduled?;
  }

  // ---- Outputs are stored only under a lease renewed after the runner returned. ----

  predicate Before(deeds: seq<Deed>, first: Deed, second: Deed, i: nat) {
    exists j, k :: 0 <= j < k < i && k < |deeds| && deeds[j] == first && deeds[k] == second
  }

  predicate Renewed(deeds: seq<Deed>, i: nat, tick: nat) {
    Before(deeds, RunnerReturned(tick), LeaseRenewed(tick), i)
  }

  predicate OutputsFenced(s: System) {
    && (forall i :: 0 <= i < |s.deeds| && s.deeds[i].OutputStored? ==> Renewed(s.deeds, i, s.deeds[i].tick))
    && (forall t :: t in s.ticks && s.ticks[t].phase.Returned? ==> RunnerReturned(t) in s.deeds)
    && (forall t :: t in s.ticks && s.ticks[t].phase.Persisting? ==> Renewed(s.deeds, |s.deeds|, t))
    && (forall t :: t in s.ticks ==> t < s.leases)
    && (forall i :: 0 <= i < |s.deeds| ==> s.deeds[i].tick < s.leases)
  }

  lemma DeedsGrow(deeds: seq<Deed>, deed: Deed, i: nat, tick: nat)
    requires Renewed(deeds, i, tick)
    ensures Renewed(deeds + [deed], i, tick) && Renewed(deeds + [deed], |deeds| + 1, tick)
  {
    var j, k :| 0 <= j < k < i && k < |deeds| && deeds[j] == RunnerReturned(tick) && deeds[k] == LeaseRenewed(tick);
    var more := deeds + [deed];
    assert more[j] == RunnerReturned(tick) && more[k] == LeaseRenewed(tick);
  }

  lemma RenewalAfterReturn(deeds: seq<Deed>, tick: nat)
    requires RunnerReturned(tick) in deeds
    ensures Renewed(deeds + [LeaseRenewed(tick)], |deeds| + 1, tick)
  {
    var j :| 0 <= j < |deeds| && deeds[j] == RunnerReturned(tick);
    var more := deeds + [LeaseRenewed(tick)];
    assert more[j] == RunnerReturned(tick) && more[|deeds|] == LeaseRenewed(tick);
  }

  lemma StepKeepsOutputsFenced(maxAttempts: nat, s: System, step: Step)
    requires OutputsFenced(s)
    ensures OutputsFenced(Do(maxAttempts, s, step))
  {
    hide FinalStatus;
    var u := Do(maxAttempts, s, step);
    if u.deeds != s.deeds {
      var deed := u.deeds[|s.deeds|];
      assert u.deeds == s.deeds + [deed];
      hide Renewed;
      forall i | 0 <= i < |u.deeds| && u.deeds[i].OutputStored?
        ensures Renewed(u.deeds, i, u.deeds[i].tick)
      {
        if i < |s.deeds| {
          DeedsGrow(s.deeds, deed, i, s.deeds[i].tick);
        } else {
          StoredUnderRenewal(s, step.tick);
        }
      }
      forall t | t in u.ticks && u.ticks[t].phase.Persisting?
        ensures Renewed(u.deeds, |u.deeds|, t)
      {
        if s.ticks[t].phase.Persisting? {
          DeedsGrow(s.deeds, deed, |s.deeds|, t);
        } else {
          RenewalAfterReturn(s.deeds, t);
        }
      }
    }
  }

  lemma StoredUnderRenewal(s: System, t: nat)
    requires OutputsFenced(s) && t in s.ticks && s.ticks[t].phase.Persisting?
    ensures Renewed(s.deeds + [OutputStored(t)], |s.deeds|, t)
  {
    DeedsGrow(s.deeds, OutputStored(t), |s.deeds|, t);
  }

  /** In every interleaving, an artifact or log is stored only after a heartbeat that followed the runner's return. */
  lemma {:induction false} OutputsAreFenced(maxAttempts: nat, steps: seq<Step>)
    ensures OutputsFenced(Run(maxAttempts, CREATED, steps))
  {
    if steps != [] {
      hide Do, OutputsFenced;
      OutputsAreFenced(maxAttempts, steps[..|steps| - 1]);
      StepKeepsOutputsFenced(maxAttempts, Run(maxAttempts, CREATED, steps[..|steps| - 1]), steps[|steps| - 1]);
    }
  }
}
