/**
 How often an attempt of a job run is finished, over every interleaving of ticks: the save that makes a
 second finish possible, the saves under which none is, and runs that show the difference.
 */
module JobAttempts {
  import opened Wrappers
  import opened JobWorkers

  predicate Distinct(finals: seq<Final>) {
    forall i, j :: 0 <= i < j < |finals| ==> finals[i].attempt != finals[j].attempt
  }

  predicate WasFinished(finals: seq<Final>, attempt: nat) {
    exists i :: 0 <= i < |finals| && finals[i].attempt == attempt
  }

  /** A stalled tick's save starts an attempt that was finished meanwhile. */
  predicate Restarts(s: System, step: Step) {
    && step.SaveStart? && step.tick in s.ticks && s.ticks[step.tick].phase.Starting?
    && !IsTerminal(s.row.status)
    && WasFinished(s.finals, s.ticks[step.tick].phase.attempt + 1)
  }

  /** It does so on a row that somebody holds a lease on. */
  predicate RestartsHeld(s: System, step: Step) {
    Restarts(s, step) && s.row.owner.Some?
  }

  /** No attempt was finished twice, and the one a lease is held for was not finished at all. */
  predicate OnceEach(s: System) {
    && Distinct(s.finals)
    && (s.row.status.Running? && s.row.owner.Some? ==> !WasFinished(s.finals, s.row.attempt))
  }

  lemma FinishKeepsOnce(maxAttempts: nat, s: System, t: nat)
    requires OnceEach(s)
    ensures OnceEach(DoFinish(maxAttempts, s, t))
  {
    hide Rejects;
    var u := DoFinish(maxAttempts, s, t);
    if u.finals != s.finals {
      var last := u.finals[|s.finals|];
      assert forall i :: 0 <= i < |s.finals| ==> s.finals[i].attempt != last.attempt by {
        assert !WasFinished(s.finals, s.row.attempt);
      }
    }
  }

  lemma StepKeepsOnce(maxAttempts: nat, s: System, step: Step)
    requires OnceEach(s) && !RestartsHeld(s, step)
    ensures OnceEach(Do(maxAttempts, s, step))
  {
    if step.Finish? {
      FinishKeepsOnce(maxAttempts, s, step.tick);
    }
  }

  /** No step of a continuation restarts a finished attempt on a held row. */
  ghost predicate NeverRestarts(maxAttempts: nat, s: System, steps: seq<Step>) {
    forall k :: 0 <= k < |steps| ==> !RestartsHeld(Run(maxAttempts, s, steps[..k]), steps[k])
  }

  lemma {:induction false} RunKeepsOnce(maxAttempts: nat, s: System, steps: seq<Step>)
    requires OnceEach(s) && NeverRestarts(maxAttempts, s, steps)
    ensures OnceEach(Run(maxAttempts, s, steps))
  {
    if steps != [] {
      var before, n := steps[..|steps| - 1], |steps| - 1;
      hide Do, OnceEach, RestartsHeld;
      assert forall k :: 0 <= k < n ==> before[..k] == steps[..k] && before[k] == steps[k];
      RunKeepsOnce(maxAttempts, s, before);
      assert !RestartsHeld(Run(maxAttempts, s, steps[..n]), steps[n]);
      StepKeepsOnce(maxAttempts, Run(maxAttempts, s, before), steps[n]);
    }
  }

  /** Not a save, and an adoption only where the runner supports it. */
  predicate Quiet(step: Step, adopting: bool) {
    !step.SaveStart? && (step.Lease? && step.reattach ==> adopting)
  }

  predicate AllQuiet(steps: seq<Step>, adopting: bool) {
    forall k :: 0 <= k < |steps| ==> Quiet(steps[k], adopting)
  }

  /** Steps without a further save lead from one system to the other. */
  ghost predicate Leads(maxAttempts: nat, s: System, u: System, adopting: bool) {
    exists steps :: AllQuiet(steps, adopting) && u == Run(maxAttempts, s, steps)
  }

  lemma LeadsToItself(maxAttempts: nat, s: System, adopting: bool)
    ensures Leads(maxAttempts, s, s, adopting)
  {
    assert AllQuiet([], adopting) && s == Run(maxAttempts, s, []);
  }

  lemma LeadsStep(maxAttempts: nat, s: System, u: System, step: Step, adopting: bool)
    requires Leads(maxAttempts, s, u, adopting) && Quiet(step, adopting)
    ensures Leads(maxAttempts, s, Do(maxAttempts, u, step), adopting)
  {
    hide Do, Quiet;
    var steps :| AllQuiet(steps, adopting) && u == Run(maxAttempts, s, steps);
    assert (steps + [step])[..|steps|] == steps;
    assert AllQuiet(steps + [step], adopting) && Do(maxAttempts, u, step) == Run(maxAttempts, s, steps + [step]);
  }

  /** A tick that can still finish what the row is on: its worker's name and its attempt are the row's. */
  predicate Holds(s: System, t: nat) {
    && t in s.ticks && !s.ticks[t].phase.Starting?
    && s.row.status.Running? && s.row.owner == Some(s.ticks[t].worker) && s.ticks[t].phase.attempt == s.row.attempt
  }

  /** It finished the row's attempt. */
  predicate FinishedOnce(s: System, u: System) {
    && |u.finals| == |s.finals| + 1 && u.finals[..|s.finals|] == s.finals
    && u.finals[|s.finals|].attempt == s.row.attempt
  }

  /** Undisturbed, a started tick that holds the row finishes its attempt with the given outcome. */
  lemma StartedTickFinishes(
    maxAttempts: nat, first: System, s: System, t: nat, outcome: Outcome, adopting: bool) returns (u: System)
    requires Leads(maxAttempts, first, s, adopting) && Holds(s, t) && s.ticks[t].phase.Started?
    ensures Leads(maxAttempts, first, u, adopting) && u == Ended(maxAttempts, s, t, outcome)
  {
    hide Leads, FinalStatus;
    var report := Report(outcome, []);
    var a := Do(maxAttempts, s, Heartbeat(t));
    LeadsStep(maxAttempts, first, s, Heartbeat(t), adopting);
    var b := Do(maxAttempts, a, RunnerReturns(t, report));
    LeadsStep(maxAttempts, first, a, RunnerReturns(t, report), adopting);
    var c := Do(maxAttempts, b, Heartbeat(t));
    LeadsStep(maxAttempts, first, b, Heartbeat(t), adopting);
    assert c.ticks[t] == Tick(s.ticks[t].worker, Persisting(s.row.attempt, report));
    assert c.deeds == s.deeds + [RunnerReturned(t), LeaseRenewed(t)];
    u := Do(maxAttempts, c, Finish(t));
    LeadsStep(maxAttempts, first, c, Finish(t), adopting);
    assert u.ticks == s.ticks - {t};
  }

  /** What such a tick leaves. */
  function Ended(maxAttempts: nat, s: System, t: nat, outcome: Outcome): System
    requires t in s.ticks
  {
    var worker, report := s.ticks[t].worker, Report(outcome, []);
    var status := FinalStatus(s.row.attempt, maxAttempts, report);
    System(Row(status, s.row.attempt, None, false), s.ticks - {t}, s.leases,
           s.finals + [Final(s.row.attempt, worker, status, report)],
           s.deeds + [RunnerReturned(t), LeaseRenewed(t)])
  }

  /** Wherever a tick that holds the row is, it can finish the row's attempt. */
  lemma HoldingTickFinishes(maxAttempts: nat, s: System, t: nat, adopting: bool) returns (u: System)
    requires Holds(s, t)
    ensures Leads(maxAttempts, s, u, adopting) && FinishedOnce(s, u)
  {
    hide Leads, FinalStatus;
    LeadsToItself(maxAttempts, s, adopting);
    u := s;
    if u.ticks[t].phase.Started? {
      LeadsStep(maxAttempts, s, u, Heartbeat(t), adopting);
      u := Do(maxAttempts, u, Heartbeat(t));
    }
    if u.ticks[t].phase.Executing? {
      LeadsStep(maxAttempts, s, u, RunnerReturns(t, Report(Passed, [])), adopting);
      u := Do(maxAttempts, u, RunnerReturns(t, Report(Passed, [])));
    }
    if u.ticks[t].phase.Returned? {
      LeadsStep(maxAttempts, s, u, Heartbeat(t), adopting);
      u := Do(maxAttempts, u, Heartbeat(t));
    }
    LeadsStep(maxAttempts, s, u, Finish(t), adopting);
    u := Do(maxAttempts, u, Finish(t));
  }

  /** A held, running row can always be adopted and finished once its lease has run out. */
  lemma HeldRowCanBeFinished(maxAttempts: nat, s: System, w: WorkerId, outcome: Outcome) returns (u: System)
    requires s.row.status.Running? && s.row.owner.Some?
    ensures Leads(maxAttempts, s, u, true) && FinishedOnce(s, u)
    ensures u.finals[|s.finals|].status == FinalStatus(s.row.attempt, maxAttempts, Report(outcome, []))
  {
    hide Leads, FinalStatus;
    LeadsToItself(maxAttempts, s, true);
    var expired := Do(maxAttempts, s, Expire);
    LeadsStep(maxAttempts, s, s, Expire, true);
    var adopted := Do(maxAttempts, expired, Lease(w, true));
    LeadsStep(maxAttempts, s, expired, Lease(w, true), true);
    u := StartedTickFinishes(maxAttempts, s, adopted, s.leases, outcome, true);
  }

  /** A restart on a held row can be continued, without another save, to a second finish of its attempt. */
  lemma RestartCanFinishTwice(maxAttempts: nat, s: System, step: Step) returns (u: System)
    requires RestartsHeld(s, step)
    ensures Leads(maxAttempts, Do(maxAttempts, s, step), u, true) && !Distinct(u.finals)
  {
    hide Leads, FinalStatus;
    var after := Do(maxAttempts, s, step);
    u := HeldRowCanBeFinished(maxAttempts, after, "adopter", Passed);
    FinishedAgain(after, u);
  }

  lemma FinishedAgain(s: System, u: System)
    requires WasFinished(s.finals, s.row.attempt) && FinishedOnce(s, u)
    ensures !Distinct(u.finals)
  {
    var i :| 0 <= i < |s.finals| && s.finals[i].attempt == s.row.attempt;
    assert u.finals[..|s.finals|][i] == u.finals[i];
  }

  /** A restart on a row nobody holds never leads to any further finish. */
  lemma UnheldRestartNeverFinishes(maxAttempts: nat, s: System, step: Step, more: seq<Step>)
    requires Restarts(s, step) && s.row.owner.None?
    ensures Run(maxAttempts, Do(maxAttempts, s, step), more).finals == s.finals
  {
    var after := Do(maxAttempts, s, step);
    assert Orphaned(after.row) && after.finals == s.finals;
    hide Do;
    OrphansNeverFinish(maxAttempts, after, more);
  }

  lemma OrphanStays(maxAttempts: nat, s: System, step: Step)
    requires Orphaned(s.row) || (IsTerminal(s.row.status) && s.row.owner.None?)
    ensures Do(maxAttempts, s, step).finals == s.finals
    ensures var row := Do(maxAttempts, s, step).row; Orphaned(row) || (IsTerminal(row.status) && row.owner.None?)
  {
    hide FinalStatus;
  }

  lemma {:induction false} OrphansNeverFinish(maxAttempts: nat, s: System, steps: seq<Step>)
    requires Orphaned(s.row) || (IsTerminal(s.row.status) && s.row.owner.None?)
    ensures Run(maxAttempts, s, steps).finals == s.finals
    ensures var row := Run(maxAttempts, s, steps).row; Orphaned(row) || (IsTerminal(row.status) && row.owner.None?)
  {
    if steps != [] {
      hide Do;
      OrphansNeverFinish(maxAttempts, s, steps[..|steps| - 1]);
      OrphanStays(maxAttempts, Run(maxAttempts, s, steps[..|steps| - 1]), steps[|steps| - 1]);
    }
  }

  /** However a system goes on without another save, no attempt is finished twice. */
  ghost predicate FinishesOnce(maxAttempts: nat, s: System) {
    forall u :: Leads(maxAttempts, s, u, true) ==> Distinct(u.finals)
  }

  lemma OnceLeadsToOnce(maxAttempts: nat, s: System)
    requires OnceEach(s)
    ensures FinishesOnce(maxAttempts, s)
  {
    forall u | Leads(maxAttempts, s, u, true)
      ensures Distinct(u.finals)
    {
      var steps :| AllQuiet(steps, true) && u == Run(maxAttempts, s, steps);
      hide Do, Run;
      RunKeepsOnce(maxAttempts, s, steps);
    }
  }

  /**
   The save that makes a second finish possible: from a system in which none is, a step leads to one in
   which some attempt can be finished twice exactly when it restarts a finished attempt on a held row.
   */
  lemma SecondFinishExactlyWhen(maxAttempts: nat, s: System, step: Step)
    requires OnceEach(s)
    ensures FinishesOnce(maxAttempts, Do(maxAttempts, s, step)) <==> !RestartsHeld(s, step)
  {
    hide Do, Leads;
    if RestartsHeld(s, step) {
      var u := RestartCanFinishTwice(maxAttempts, s, step);
    } else {
      StepKeepsOnce(maxAttempts, s, step);
      OnceLeadsToOnce(maxAttempts, Do(maxAttempts, s, step));
    }
  }

  /**
   All along an interleaving no attempt is finished twice, nor can be without another save, exactly when
   no step of it restarts a finished attempt on a held row.
   */
  lemma AttemptsFinishOnceExactlyWhen(maxAttempts: nat, steps: seq<Step>)
    ensures (forall k :: 0 <= k <= |steps| ==> FinishesOnce(maxAttempts, Run(maxAttempts, CREATED, steps[..k]))) <==>
      NeverRestarts(maxAttempts, CREATED, steps)
  {
    hide Do, FinishesOnce, RestartsHeld, OnceEach;
    if NeverRestarts(maxAttempts, CREATED, steps) {
      forall k | 0 <= k <= |steps|
        ensures FinishesOnce(maxAttempts, Run(maxAttempts, CREATED, steps[..k]))
      {
        OnceUpTo(maxAttempts, steps, k);
        OnceLeadsToOnce(maxAttempts, Run(maxAttempts, CREATED, steps[..k]));
      }
    } else {
      var k := FirstRestart(maxAttempts, steps);
      assert steps[..k + 1][..k] == steps[..k];
      SecondFinishExactlyWhen(maxAttempts, Run(maxAttempts, CREATED, steps[..k]), steps[k]);
      assert !FinishesOnce(maxAttempts, Run(maxAttempts, CREATED, steps[..k + 1]));
    }
  }

  lemma OnceUpTo(maxAttempts: nat, steps: seq<Step>, k: nat)
    requires k <= |steps|
    requires forall j :: 0 <= j < k ==> !RestartsHeld(Run(maxAttempts, CREATED, steps[..j]), steps[j])
    ensures OnceEach(Run(maxAttempts, CREATED, steps[..k]))
  {
    hide Do, Run, RestartsHeld;
    assert forall j :: 0 <= j < k ==> steps[..k][..j] == steps[..j];
    RunKeepsOnce(maxAttempts, CREATED, steps[..k]);
  }

  lemma {:induction false} FirstRestart(maxAttempts: nat, steps: seq<Step>) returns (k: nat)
    requires !NeverRestarts(maxAttempts, CREATED, steps)
    ensures k < |steps| && RestartsHeld(Run(maxAttempts, CREATED, steps[..k]), steps[k])
    ensures OnceEach(Run(maxAttempts, CREATED, steps[..k]))
  {
    hide Do, Run, RestartsHeld, OnceEach;
    k := 0;
    while !RestartsHeld(Run(maxAttempts, CREATED, steps[..k]), steps[k])
      invariant k < |steps|
      invariant forall j :: 0 <= j < k ==> !RestartsHeld(Run(maxAttempts, CREATED, steps[..j]), steps[j])
      decreases |steps| - k
    {
      k := k + 1;
    }
    OnceUpTo(maxAttempts, steps, k);
  }

  /** A save that restarts a finished attempt can be continued to a second finish exactly when the row is held. */
  lemma RestartFinishesTwiceExactlyWhen(maxAttempts: nat, s: System, step: Step)
    requires Restarts(s, step) && Distinct(s.finals)
    ensures (exists u :: Leads(maxAttempts, Do(maxAttempts, s, step), u, true) && !Distinct(u.finals)) <==>
      s.row.owner.Some?
    ensures s.row.owner.None? ==>
      forall more :: Run(maxAttempts, Do(maxAttempts, s, step), more).finals == s.finals
  {
    hide Do, Run;
    if s.row.owner.Some? {
      var u := RestartCanFinishTwice(maxAttempts, s, step);
    } else {
      forall more
        ensures Run(maxAttempts, Do(maxAttempts, s, step), more).finals == s.finals
      {
        UnheldRestartNeverFinishes(maxAttempts, s, step, more);
      }
    }
  }

  // ---- Where runs are not adopted. ----

  /** Nothing was finished since, and no tick holds a running row. */
  predicate NobodyHolds(s: System, finals: seq<Final>) {
    s.finals == finals && forall t :: t in s.ticks ==> !Holds(s, t)
  }

  lemma QuietStepKeepsNobody(maxAttempts: nat, s: System, step: Step, finals: seq<Final>)
    requires NobodyHolds(s, finals) && Quiet(step, false)
    ensures NobodyHolds(Do(maxAttempts, s, step), finals)
  {
    hide FinalStatus;
    if step.Finish? && step.tick in s.ticks {
      assert !Holds(s, step.tick);
    }
  }

  lemma {:induction false} QuietRunKeepsNobody(maxAttempts: nat, s: System, steps: seq<Step>, finals: seq<Final>)
    requires NobodyHolds(s, finals) && AllQuiet(steps, false)
    ensures NobodyHolds(Run(maxAttempts, s, steps), finals)
  {
    if steps != [] {
      hide Do, NobodyHolds, Quiet;
      QuietRunKeepsNobody(maxAttempts, s, steps[..|steps| - 1], finals);
      QuietStepKeepsNobody(maxAttempts, Run(maxAttempts, s, steps[..|steps| - 1]), steps[|steps| - 1], finals);
    }
  }

  /**
   Under a runner that does not support adoption, a restart can be continued to a second finish exactly
   when some tick under way has the owner's name and the restarted attempt, the stalled tick included.
   */
  lemma WithoutAdoptionExactlyWhen(maxAttempts: nat, s: System, step: Step)
    requires Restarts(s, step) && Distinct(s.finals)
    ensures var after := Do(maxAttempts, s, step);
            (exists u :: Leads(maxAttempts, after, u, false) && !Distinct(u.finals)) <==> exists t :: Holds(after, t)
  {
    var after := Do(maxAttempts, s, step);
    assert after.finals == s.finals && WasFinished(after.finals, after.row.attempt);
    hide Do, WasFinished, Run;
    if t :| Holds(after, t) {
      var u := HoldingTickFinishes(maxAttempts, after, t, false);
      FinishedAgain(after, u);
    } else {
      forall u | Leads(maxAttempts, after, u, false)
        ensures Distinct(u.finals)
      {
        var steps :| AllQuiet(steps, false) && u == Run(maxAttempts, after, steps);
        QuietRunKeepsNobody(maxAttempts, after, steps, s.finals);
      }
    }
  }

  // ---- Timely saves. ----

  /** Every save that lands does so under the tick's own lease, the last one taken. */
  predicate Timely(s: System, step: Step) {
    step.SaveStart? && step.tick in s.ticks && s.ticks[step.tick].phase.Starting? && !IsTerminal(s.row.status) ==>
      step.tick == s.leases - 1 && s.row.status.Leased?
  }

  /** What timely saves add: the attempt count only grows, and the last lease starts from it. */
  predicate Growing(s: System) {
    && (forall i :: 0 <= i < |s.finals| ==> s.finals[i].attempt <= s.row.attempt)
    && (s.row.status.Leased? && s.leases > 0 && s.leases - 1 in s.ticks && s.ticks[s.leases - 1].phase.Starting? ==>
          s.ticks[s.leases - 1].phase.attempt == s.row.attempt)
  }

  lemma TimelyKeepsGrowing(maxAttempts: nat, s: System, step: Step)
    requires Growing(s) && Timely(s, step)
    ensures Growing(Do(maxAttempts, s, step)) && !Restarts(s, step)
  {
    hide Rejects;
  }

  /** When every save lands under its tick's own lease, each attempt is finished at most once. */
  lemma {:induction false} TimelySavesFinishOnce(maxAttempts: nat, steps: seq<Step>)
    requires forall k :: 0 <= k < |steps| ==> Timely(Run(maxAttempts, CREATED, steps[..k]), steps[k])
    ensures var s := Run(maxAttempts, CREATED, steps); OnceEach(s) && Growing(s)
  {
    if steps != [] {
      var before, n := steps[..|steps| - 1], |steps| - 1;
      hide Do, Timely, OnceEach, Growing;
      assert forall k :: 0 <= k < n ==> before[..k] == steps[..k] && before[k] == steps[k];
      TimelySavesFinishOnce(maxAttempts, before);
      var s := Run(maxAttempts, CREATED, before);
      assert Timely(s, steps[n]);
      TimelyKeepsGrowing(maxAttempts, s, steps[n]);
      StepKeepsOnce(maxAttempts, s, steps[n]);
    } else {
      NothingFinished();
    }
  }

  lemma NothingFinished()
    ensures OnceEach(CREATED) && Growing(CREATED)
  {
  }

  // ---- Saves that are not. ----

  /** The row's owner is the tick's worker and the row is leased, though perhaps for another tick of it. */
  predicate OwnerMatches(s: System, step: Step) {
    step.SaveStart? && step.tick in s.ticks && s.ticks[step.tick].phase.Starting? && !IsTerminal(s.row.status) ==>
      s.row.owner == Some(s.ticks[step.tick].worker) && s.row.status.Leased?
  }

  predicate Adopts(step: Step) {
    step.Lease? && step.reattach
  }

  /** A system some interleaving reaches; matched, if without adoptions and each save found its worker's name on a leased row. */
  ghost predicate Reachable(maxAttempts: nat, s: System, matched: bool) {
    exists steps :: s == Run(maxAttempts, CREATED, steps) && (matched ==> Matched(maxAttempts, steps))
  }

  ghost predicate Matched(maxAttempts: nat, steps: seq<Step>) {
    forall k :: 0 <= k < |steps| ==> OwnerMatches(Run(maxAttempts, CREATED, steps[..k]), steps[k]) && !Adopts(steps[k])
  }

  lemma ReachableStep(maxAttempts: nat, s: System, step: Step, matched: bool)
    requires Reachable(maxAttempts, s, matched) && (matched ==> OwnerMatches(s, step) && !Adopts(step))
    ensures Reachable(maxAttempts, Do(maxAttempts, s, step), matched)
  {
    hide Do, OwnerMatches;
    var steps :| s == Run(maxAttempts, CREATED, steps) && (matched ==> Matched(maxAttempts, steps));
    var more := steps + [step];
    assert more[..|steps|] == steps;
    assert forall k :: 0 <= k < |steps| ==> more[..k] == steps[..k] && more[k] == steps[k];
    assert Do(maxAttempts, s, step) == Run(maxAttempts, CREATED, more);
    assert matched ==> Matched(maxAttempts, more);
  }

  lemma ReachableLeads(maxAttempts: nat, s: System, u: System, matched: bool)
    requires Reachable(maxAttempts, s, matched) && Leads(maxAttempts, s, u, !matched)
    ensures Reachable(maxAttempts, u, matched)
  {
    hide Do;
    var steps :| AllQuiet(steps, !matched) && u == Run(maxAttempts, s, steps);
    QuietStepsReach(maxAttempts, s, steps, matched);
  }

  lemma {:induction false} QuietStepsReach(maxAttempts: nat, s: System, steps: seq<Step>, matched: bool)
    requires Reachable(maxAttempts, s, matched) && AllQuiet(steps, !matched)
    ensures Reachable(maxAttempts, Run(maxAttempts, s, steps), matched)
  {
    hide Do, Reachable;
    if steps != [] {
      QuietStepsReach(maxAttempts, s, steps[..|steps| - 1], matched);
      ReachableStep(maxAttempts, Run(maxAttempts, s, steps[..|steps| - 1]), steps[|steps| - 1], matched);
    }
  }

  lemma CreatedIsReachable(maxAttempts: nat, matched: bool)
    ensures Reachable(maxAttempts, CREATED, matched)
  {
    assert CREATED == Run(maxAttempts, CREATED, []) && Matched(maxAttempts, []);
  }

  const BROKEN := Report(Broke, [])

  /** Tick 0 leased the run and stalled before its save; its lease expired and the run was queued again. */
  function Stalled(w: WorkerId): System {
    System(Row(Queued, 0, None, false), map[0 := Tick(w, Starting(0))], 1, [], [])
  }

  lemma TickStalls(maxAttempts: nat, w: WorkerId)
    ensures Reachable(maxAttempts, Stalled(w), true)
  {
    hide Reachable;
    CreatedIsReachable(maxAttempts, true);
    var leased := Do(maxAttempts, CREATED, Lease(w, false));
    ReachableStep(maxAttempts, CREATED, Lease(w, false), true);
    var expired := Do(maxAttempts, leased, Expire);
    ReachableStep(maxAttempts, leased, Expire, true);
    ReachableStep(maxAttempts, expired, Recover(false), true);
    assert Do(maxAttempts, expired, Recover(false)) == Stalled(w);
  }

  /** Tick 1 ran and failed the first attempt meanwhile; the run waits for its second. */
  function Overtaken(w: WorkerId, other: WorkerId): System {
    System(Row(RetryScheduled, 1, None, false), map[0 := Tick(w, Starting(0))], 2,
           [Final(1, other, RetryScheduled, BROKEN)], [RunnerReturned(1), LeaseRenewed(1)])
  }

  lemma NothingIsRejected()
    ensures !Rejects([])
  {
  }

  lemma TickIsOvertaken(maxAttempts: nat, w: WorkerId, other: WorkerId)
    requires maxAttempts >= 2
    ensures Reachable(maxAttempts, Overtaken(w, other), true)
  {
    hide Reachable, Leads, Rejects;
    TickStalls(maxAttempts, w);
    NothingIsRejected();
    var leased := Do(maxAttempts, Stalled(w), Lease(other, false));
    ReachableStep(maxAttempts, Stalled(w), Lease(other, false), true);
    var saved := Do(maxAttempts, leased, SaveStart(1));
    ReachableStep(maxAttempts, leased, SaveStart(1), true);
    LeadsToItself(maxAttempts, saved, false);
    var ended := StartedTickFinishes(maxAttempts, saved, saved, 1, Broke, false);
    ReachableLeads(maxAttempts, saved, ended, true);
    assert saved.ticks - {1} == map[0 := Tick(w, Starting(0))];
    assert ended == Overtaken(w, other);
  }

  /** A third tick leased the run for its second attempt when the stalled save landed. */
  lemma StalledSaveLands(maxAttempts: nat, w: WorkerId, other: WorkerId, third: WorkerId) returns (s: System)
    requires maxAttempts >= 2
    ensures Reachable(maxAttempts, s, third == w)
    ensures s.row == Row(Running, 1, Some(third), true) && s.finals == [Final(1, other, RetryScheduled, BROKEN)]
    ensures 0 in s.ticks && s.ticks[0] == Tick(w, Started(1))
  {
    hide Reachable;
    TickIsOvertaken(maxAttempts, w, other);
    ReachableAnyway(maxAttempts, Overtaken(w, other), third == w);
    var promoted := Do(maxAttempts, Overtaken(w, other), Promote);
    ReachableStep(maxAttempts, Overtaken(w, other), Promote, third == w);
    var leased := Do(maxAttempts, promoted, Lease(third, false));
    ReachableStep(maxAttempts, promoted, Lease(third, false), third == w);
    s := Do(maxAttempts, leased, SaveStart(0));
    ReachableStep(maxAttempts, leased, SaveStart(0), third == w);
  }

  lemma ReachableAnyway(maxAttempts: nat, s: System, matched: bool)
    requires Reachable(maxAttempts, s, true)
    ensures Reachable(maxAttempts, s, matched)
  {
  }

  /** Between workers of different names, a stalled save and an adoption finish attempt 1 twice. */
  lemma StalledSaveFinishesTwice(maxAttempts: nat)
    requires maxAttempts >= 2
    ensures exists s :: Reachable(maxAttempts, s, false) && !Distinct(s.finals)
  {
    hide Reachable, Leads, FinalStatus;
    var s := StalledSaveLands(maxAttempts, "a", "b", "c");
    var u := HeldRowCanBeFinished(maxAttempts, s, "d", Passed);
    ReachableLeads(maxAttempts, s, u, false);
    assert s.finals[0].attempt == 1;
    FinishedAgain(s, u);
  }

  /**
   Between ticks of one worker no adoption is needed, and every save finds its worker's name on a leased
   row: matching the owner is not enough, the lease has to be the tick's own.
   */
  lemma MatchingOwnerIsNotEnough(maxAttempts: nat)
    requires maxAttempts >= 2
    ensures exists s :: Reachable(maxAttempts, s, true) && !Distinct(s.finals)
  {
    hide Reachable, Leads, FinalStatus;
    var s := StalledSaveLands(maxAttempts, "w", "w", "w");
    var u := HoldingTickFinishes(maxAttempts, s, 0, false);
    ReachableLeads(maxAttempts, s, u, true);
    assert s.finals[0].attempt == 1;
    FinishedAgain(s, u);
  }

  lemma StalledSaveOrphansTheRun(maxAttempts: nat)
    ensures exists s :: Reachable(maxAttempts, s, false) && Orphaned(s.row)
  {
    hide Reachable;
    TickStalls(maxAttempts, "a");
    ReachableAnyway(maxAttempts, Stalled("a"), false);
    ReachableStep(maxAttempts, Stalled("a"), SaveStart(0), false);
    assert Orphaned(Do(maxAttempts, Stalled("a"), SaveStart(0)).row);
  }
}
