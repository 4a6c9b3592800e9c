/** Repair routes, budgets and progress checks of loop regions (crates/runtime/src/loops.rs). */
module Loops {
  import opened Wrappers
  import opened Identifiers
  import opened Definition
  import opened RunStates

  datatype Repairing =
    | RunAgain(node: Identifier)
    | HandTo(node: Identifier)
    | EscalateTo(to: Identifier)
    | Rejected
    | Exhausted(failure: FailureKind)

  /** This is the first route declared for the kind. */
  predicate FirstRoute(repairs: seq<RepairRoute>, kind: FailureKind, route: Route) {
    exists i :: (
      && 0 <= i < |repairs| && repairs[i] == RepairRoute(kind, route)
      && forall j :: 0 <= j < i ==> repairs[j].failure != kind)
  }

  /** The first route a loop declares for a kind of failure. */
  function RouteFor(repairs: seq<RepairRoute>, failure: FailureKind): (route: Option<Route>)
    ensures route.Some? ==> FirstRoute(repairs, failure, route.value)
    ensures route.None? ==> forall i :: 0 <= i < |repairs| ==> repairs[i].failure != failure
  {
    if repairs == [] then None
    else if repairs[0].failure == failure then
      assert repairs[0] == RepairRoute(failure, repairs[0].route);
      Some(repairs[0].route)
    else
      assert forall i :: 0 <= i < |repairs| - 1 ==> repairs[1..][i] == repairs[i + 1];
      RouteFor(repairs[1..], failure)
  }

  /** How often a node reported one kind of failure, as a `u32`. */
  function FailureCount(failures: seq<ReportedFailure>, kind: FailureKind): nat {
    if failures == [] then 0
    else SaturatingAdd(FailureCount(failures[1..], kind), if failures[0].kind == kind then 1 else 0, U32_MAX)
  }

  function Kinds(failures: seq<ReportedFailure>): seq<FailureKind> {
    seq(|failures|, i requires 0 <= i < |failures| => failures[i].kind)
  }

  lemma {:induction false} FailureCountIsExact(failures: seq<ReportedFailure>, kind: FailureKind)
    ensures FailureCount(failures, kind) ==
      var exact := multiset(Kinds(failures))[kind]; if exact > U32_MAX then U32_MAX else exact
  {
    if failures != [] {
      FailureCountIsExact(failures[1..], kind);
      assert Kinds(failures) == [failures[0].kind] + Kinds(failures[1..]);
    }
  }

  /** What a declared route says about a failure; `None` when the loop declared nothing for it. */
  function RepairFor(spec: LoopSpec, state: RunState, node: Identifier, failure: FailureKind): Option<Repairing> {
    match RouteFor(spec.repairs, failure)
    case None => None
    case Some(Retry(target, attempts)) =>
      if FailureCount(state.FailuresOf(node), failure) > attempts then Some(Exhausted(failure))
      else Some(RunAgain(target))
    case Some(Repair(target)) => Some(HandTo(target))
    case Some(Escalate(to)) => Some(EscalateTo(to))
    case Some(Reject) => Some(Rejected)
  }

  /** The continuously spent budgets; the iteration count is not one of them. */
  function BudgetReached(budget: LoopBudget, spent: Spent): Option<StopReason> {
    if spent.wallMs >= budget.wallMs then Some(BudgetExhausted(WallTime))
    else if budget.tokens > 0 && spent.tokens >= budget.tokens then Some(BudgetExhausted(Tokens))
    else if budget.costMicroUnits > 0 && spent.costMicroUnits >= budget.costMicroUnits
      then Some(BudgetExhausted(Cost))
    else if budget.effectCount > 0 && spent.effects >= budget.effectCount then Some(BudgetExhausted(Effects))
    else None
  }

  function IterationsReached(budget: LoopBudget, progress: LoopProgress): Option<StopReason> {
    if progress.started >= budget.maxIterations then Some(BudgetExhausted(Iterations)) else None
  }

  function InvariantBroken(progress: LoopProgress): Option<StopReason> {
    match progress.failedInvariant
    case None => None
    case Some(id) => Some(InvariantFailed(id))
  }

  function Stuck(measure: ProgressMeasure, progress: LoopProgress): Option<StopReason> {
    if progress.stalled >= 2 then Some(NonProgress(measure.id))
    else
      match (progress.lastProgress, progress.previousProgress)
      case (Some(last), Some(previous)) =>
        var moved := match measure.direction
                     case StrictlyDecreasing => last < previous
                     case StrictlyIncreasing => last > previous;
        if !moved && last != previous then Some(NonProgress(measure.id)) else None
      case _ => None
  }

  /** A retry route runs its node again exactly while the failure was reported no more often than it allows. */
  lemma RetriesExactlyWhen(spec: LoopSpec, state: RunState, node: Identifier, failure: FailureKind)
    requires RouteFor(spec.repairs, failure).Some? && RouteFor(spec.repairs, failure).value.Retry?
    requires RouteFor(spec.repairs, failure).value.attempts < U32_MAX
    ensures var route := RouteFor(spec.repairs, failure).value;
            RepairFor(spec, state, node, failure) ==
              if multiset(Kinds(state.FailuresOf(node)))[failure] <= route.attempts
              then Some(RunAgain(route.node)) else Some(Exhausted(failure))
  {
    FailureCountIsExact(state.FailuresOf(node), failure);
  }
}
