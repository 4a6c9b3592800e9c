/**
 Job workers sharing one stored run (crates/application/src/execution.rs), over the store's guards
 (crates/postgres/src/job_runs.rs, crates/postgres/src/repositories.rs): leasing and adoption, the
 unfenced save that starts an attempt, heartbeats, the fenced finish, lease expiry, requeueing,
 retries and cancellation. A worker runs several ticks at once under its one id
 (crates/worker/src/runtime.rs), so ticks are told apart by the lease they took. A sequence of `Step`s
 is one interleaving of any number of ticks; a step that does not apply changes nothing, and a tick may
 stall or crash between any two of its steps.
 */
module JobWorkers {
  import opened Wrappers
  import JobOutputs

  type WorkerId = string

  datatype Status = Queued | Leased | Running | RetryScheduled | Succeeded | Failed | Cancelled | TimedOut

  predicate IsTerminal(status: Status) {
    status.Succeeded? || status.Failed? || status.Cancelled? || status.TimedOut?
  }

  /** The stored run. `owner` and the lease's expiry are set and cleared together; `live` is "not expired". */
  datatype Row = Row(status: Status, attempt: nat, owner: Option<WorkerId>, live: bool)

  datatype Outcome = Passed | Aborted | Broke | Overran

  /** What the runner hands back: how the job ended, and the artifacts it left. */
  datatype Report = Report(outcome: Outcome, artifacts: seq<JobOutputs.Artifact>)

  /** Storing the artifacts stops at one the domain refuses. */
  predicate Rejects(artifacts: seq<JobOutputs.Artifact>) {
    JobOutputs.FirstRejected(artifacts) < |artifacts|
  }

  /** Where a tick is: what it will do with its next store or runner call. */
  datatype Phase =
    | Starting(attempt: nat)
    | Started(attempt: nat)
    | Executing(attempt: nat)
    | Returned(attempt: nat, report: Report)
    | Persisting(attempt: nat, report: Report)

  datatype Tick = Tick(worker: WorkerId, phase: Phase)

  /** An attempt that was finished in the store. */
  datatype Final = Final(attempt: nat, worker: WorkerId, status: Status, report: Report)

  /** What a tick did outside the run's row. */
  datatype Deed = RunnerReturned(tick: nat) | LeaseRenewed(tick: nat) | OutputStored(tick: nat)

  /** Ticks are numbered by the leases taken: the next lease starts tick `leases`. */
  datatype System = System(
    row: Row, ticks: map<nat, Tick>, leases: nat, finals: seq<Final>, deeds: seq<Deed>)

  datatype Step =
    | Lease(worker: WorkerId, reattach: bool)
    | SaveStart(tick: nat)
    | Heartbeat(tick: nat)
    | RunnerReturns(tick: nat, report: Report)
    | Persist(tick: nat)
    | Finish(tick: nat)
    | Crash(tick: nat)
    | Expire
    | Recover(preserveRunning: bool)
    | Promote
    | Cancel

  /** A failed attempt is tried again while attempts remain. */
  function RetryDecision(attempt: nat, maxAttempts: nat, failed: Status): Status {
    if attempt < maxAttempts then RetryScheduled else failed
  }

  function FinalStatus(attempt: nat, maxAttempts: nat, report: Report): Status {
    if Rejects(report.artifacts) then Failed
    else
      match report.outcome
      case Passed => Succeeded
      case Aborted => Cancelled
      case Broke => RetryDecision(attempt, maxAttempts, Failed)
      case Overran => RetryDecision(attempt, maxAttempts, TimedOut)
  }

  function WithPhase(s: System, t: nat, phase: Phase): System
    requires t in s.ticks
  {
    s.(ticks := s.ticks[t := s.ticks[t].(phase := phase)])
  }

  function Dropped(s: System, t: nat): System {
    s.(ticks := s.ticks - {t})
  }

  predicate Expired(row: Row) {
    row.owner.Some? && !row.live
  }

  function DoLease(s: System, w: WorkerId, reattach: bool): System {
    var leased := s.(row := s.row.(owner := Some(w), live := true), leases := s.leases + 1);
    if s.row.status.Queued? then
      leased.(row := leased.row.(status := Leased),
              ticks := s.ticks[s.leases := Tick(w, Starting(s.row.attempt))])
    else if reattach && s.row.status.Running? && Expired(s.row) then
      leased.(ticks := s.ticks[s.leases := Tick(w, Started(s.row.attempt))])
    else s
  }

  /** The save that starts an attempt names no owner: only a terminal row refuses it. */
  function DoSave(s: System, t: nat): System {
    if t !in s.ticks || !s.ticks[t].phase.Starting? then s
    else
      var attempt := s.ticks[t].phase.attempt + 1;
      WithPhase(if IsTerminal(s.row.status) then s else s.(row := s.row.(status := Running, attempt := attempt)),
                t, Started(attempt))
  }

  predicate Renews(row: Row, w: WorkerId) {
    row.owner == Some(w) && (row.status.Leased? || row.status.Running?)
  }

  function DoHeartbeat(s: System, t: nat): System {
    if t !in s.ticks || s.ticks[t].phase.Starting? || s.ticks[t].phase.Persisting? then s
    else if !Renews(s.row, s.ticks[t].worker) then Dropped(s, t)
    else
      var renewed := s.(row := s.row.(live := true));
      match s.ticks[t].phase
      case Started(attempt) => WithPhase(renewed, t, Executing(attempt))
      case Returned(attempt, report) =>
        WithPhase(renewed.(deeds := s.deeds + [LeaseRenewed(t)]), t, Persisting(attempt, report))
      case _ => renewed
  }

  function DoReturn(s: System, t: nat, report: Report): System {
    if t !in s.ticks || !s.ticks[t].phase.Executing? then s
    else
      WithPhase(s.(deeds := s.deeds + [RunnerReturned(t)]), t, Returned(s.ticks[t].phase.attempt, report))
  }

  function DoPersist(s: System, t: nat): System {
    if t !in s.ticks || !s.ticks[t].phase.Persisting? then s
    else s.(deeds := s.deeds + [OutputStored(t)])
  }

  predicate Finishes(row: Row, w: WorkerId, attempt: nat) {
    row.attempt == attempt && row.owner == Some(w) && row.status.Running?
  }

  function DoFinish(maxAttempts: nat, s: System, t: nat): System {
    if t !in s.ticks || !s.ticks[t].phase.Persisting? then s
    else
      var worker, phase := s.ticks[t].worker, s.ticks[t].phase;
      var status := FinalStatus(phase.attempt, maxAttempts, phase.report);
      Dropped(if !Finishes(s.row, worker, phase.attempt) then s
              else s.(row := Row(status, s.row.attempt, None, false),
                      finals := s.finals + [Final(phase.attempt, worker, status, phase.report)]),
              t)
  }

  function DoRecover(s: System, preserveRunning: bool): System {
    if (s.row.status.Leased? || (!preserveRunning && s.row.status.Running?)) && Expired(s.row)
    then s.(row := Row(Queued, s.row.attempt, None, false))
    else s
  }

  function Do(maxAttempts: nat, s: System, step: Step): System {
    match step
    case Lease(w, reattach) => DoLease(s, w, reattach)
    case SaveStart(t) => DoSave(s, t)
    case Heartbeat(t) => DoHeartbeat(s, t)
    case RunnerReturns(t, report) => DoReturn(s, t, report)
    case Persist(t) => DoPersist(s, t)
    case Finish(t) => DoFinish(maxAttempts, s, t)
    case Crash(t) => Dropped(s, t)
    case Expire => s.(row := s.row.(live := false))
    case Recover(preserveRunning) => DoRecover(s, preserveRunning)
    case Promote => if s.row.status.RetryScheduled? then s.(row := s.row.(status := Queued)) else s
    case Cancel => if IsTerminal(s.row.status) then s else s.(row := Row(Cancelled, s.row.attempt, None, false))
  }

  function Run(maxAttempts: nat, s: System, steps: seq<Step>): System {
    if steps == [] then s
    else Do(maxAttempts, Run(maxAttempts, s, steps[..|steps| - 1]), steps[|steps| - 1])
  }

  /** A run that was just queued. */
  const CREATED := System(Row(Queued, 0, None, false), map[], 0, [], [])

  // ---- Rows without a lease. ----

  predicate OwnedWhileActive(row: Row) {
    row.owner.Some? <==> row.status.Leased? || row.status.Running?
  }

  /** A save that lands while nobody holds the run. */
  predicate SavesUnleased(s: System, step: Step) {
    && step.SaveStart? && step.tick in s.ticks && s.ticks[step.tick].phase.Starting?
    && (s.row.status.Queued? || s.row.status.RetryScheduled?)
  }

  lemma OwnershipBreaksExactlyWhen(maxAttempts: nat, s: System, step: Step)
    requires OwnedWhileActive(s.row)
    ensures OwnedWhileActive(Do(maxAttempts, s, step).row) <==> !SavesUnleased(s, step)
  {
  }

  /** A running row without a lease is never leased, requeued or finished: only a cancellation ends it. */
  predicate Orphaned(row: Row) {
    row.status.Running? && row.owner.None?
  }

  lemma {:induction false} OrphansStay(maxAttempts: nat, s: System, steps: seq<Step>)
    requires Orphaned(s.row) && forall k :: 0 <= k < |steps| ==> !steps[k].Cancel?
    ensures Orphaned(Run(maxAttempts, s, steps).row) && Run(maxAttempts, s, steps).finals == s.finals
  {
    if steps != [] {
      OrphansStay(maxAttempts, s, steps[..|steps| - 1]);
    }
  }

  lemma TerminalStays(maxAttempts: nat, s: System, step: Step)
    requires IsTerminal(s.row.status) && s.row.owner.None? && !s.row.live
    ensures Do(maxAttempts, s, step).row == s.row && Do(maxAttempts, s, step).finals == s.finals
  {
    hide FinalStatus;
  }

  /** Terminal rows never change again. */
  lemma {:induction false} TerminalForever(maxAttempts: nat, s: System, steps: seq<Step>)
    requires IsTerminal(s.row.status) && s.row.owner.None? && !s.row.live
    ensures Run(maxAttempts, s, steps).row == s.row && Run(maxAttempts, s, steps).finals == s.finals
  {
    if steps != [] {
      hide Do;
      TerminalForever(maxAttempts, s, steps[..|steps| - 1]);
      TerminalStays(maxAttempts, Run(maxAttempts, s, steps[..|steps| - 1]), steps[|steps| - 1]);
    }
  }
}
