/** The events a run's log is made of (crates/runtime/src/event.rs). */
module RunEvents {
  import opened Wrappers
  import opened Identifiers
  import opened Definition

  /** A content digest, represented by the content it stands for. */
  type Digest = string

  type Outputs = map<string, Digest>

  /** Milliseconds, always supplied and never read from a clock. */
  type Time = int

  datatype ControlValue = Bool(flag: bool) | Integer(number: int)

  datatype Wait =
    | Timer(until: Time)
    | Event(name: Identifier)
    | HumanGate(node: Identifier, obligation: Identifier)

  datatype RunFailure =
    | NodeFailure(node: Identifier, failure: FailureKind, detail: string)
    | EffectDoubt(node: Identifier, effect: Identifier)
    | BudgetSpent(resource: string)
    | ControlMissing(region: Identifier, node: Identifier, port: string)
    | LoopFailure(region: Identifier, reason: StopReason)

  datatype InvariantOutcome = InvariantOutcome(invariantId: Identifier, held: bool, timing: Timing)

  datatype IterationRecord = IterationRecord(
    index: nat,
    stateIn: Outputs,
    stateOut: Outputs,
    invariants: seq<InvariantOutcome>,
    progress: Option<int>,
    spent: LoopBudget)

  datatype RunEvent =
    | Admission(definition: Digest, mode: string)
    | Started(who: Identifier)
    | NodeStarted(node: Identifier)
    | NodeFinished(node: Identifier, outputs: Outputs, control: map<string, ControlValue>)
    | NodeFailed(node: Identifier, failure: FailureKind, detail: string)
    | EffectClaimed(node: Identifier, effect: Identifier, attempt: nat, key: Option<string>)
    | EffectFinalized(node: Identifier, effect: Identifier, attempt: nat, receipt: Digest)
    | EffectAbandoned(node: Identifier, effect: Identifier, attempt: nat, refusal: string)
    | EffectUncertain(node: Identifier, effect: Identifier, attempt: nat)
    | IterationStarted(region: Identifier, index: nat, members: set<Identifier>)
    | IterationFinished(region: Identifier, record: IterationRecord)
    | LoopStopped(region: Identifier, reason: StopReason)
    | Suspended(wait: Wait)
    | Resumed(wait: Wait, who: Identifier)
    | CancellationRequested(who: Identifier)
    | Compensated(node: Identifier, effect: Identifier, compensation: Identifier, receipt: Digest)
    | Cancelled(who: Identifier)
    | Failed(failed: RunFailure)
    | Completed(results: map<string, Digest>)

  predicate EndsRun(event: RunEvent) {
    event.Completed? || event.Failed? || event.Cancelled?
  }

  datatype RecordedEvent = RecordedEvent(position: nat, epoch: nat, at: Time, event: RunEvent)
}
