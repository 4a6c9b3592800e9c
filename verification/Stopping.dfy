/** Compensations owed, node and run deadlines (crates/runtime/src/failure.rs). */
module Stopping {
  import opened Wrappers
  import opened Identifiers
  import opened Definition
  import opened RunEvents
  import opened RunStates

  datatype Compensation = Compensation(node: Identifier, effect: Identifier, route: Identifier)

  /** The compensation one finalized effect still owes, if any. */
  function Owed(definition: Definition, state: RunState, done: EffectRef): Option<Compensation> {
    if done in state.compensated then None
    else
      match definition.graph.EffectOf(done.0, done.1)
      case None => None
      case Some(declared) =>
        match declared.reversibility
        case Reversible(route) => Some(Compensation(done.0, done.1, route))
        case Irreversible => None
  }

  function OwedFor(definition: Definition, state: RunState, order: seq<EffectRef>): (owed: seq<Compensation>)
    ensures owed == [] <==> forall done :: done in order ==> Owed(definition, state, done).None?
  {
    if order == [] then []
    else
      var last := order[|order| - 1];
      assert order == order[..|order| - 1] + [last];
      var rest := OwedFor(definition, state, order[..|order| - 1]);
      match Owed(definition, state, last)
      case None => rest
      case Some(owed) => [owed] + rest
  }

  /** The compensations outstanding for everything finalized, the newest finalization first. */
  function PendingCompensations(definition: Definition, state: RunState): seq<Compensation> {
    OwedFor(definition, state, state.finalizedOrder)
  }

  predicate PastDeadline(started: Time, now: Time, wallMs: nat) {
    var elapsed := SaturatingSub(now, started);
    wallMs != 0 && elapsed >= 0 && elapsed >= wallMs
  }

  predicate Overdue(definition: Definition, state: RunState, now: Time, node: Identifier) {
    && node in state.running
    && definition.graph.NodeOf(node).Some?
    && PastDeadline(state.running[node], now, definition.graph.NodeOf(node).value.wallMs)
  }

  function TimedOutNode(definition: Definition, state: RunState, now: Time): (timedOut: Option<Identifier>)
    ensures timedOut.Some? ==> Overdue(definition, state, now, timedOut.value)
    ensures timedOut.None? ==> forall node :: node in state.running ==> !Overdue(definition, state, now, node)
  {
    var overdue := set node | node in state.running && Overdue(definition, state, now, node);
    assert forall node :: node in state.running && Overdue(definition, state, now, node) ==> node in overdue;
    if overdue == {} then None else Some(First(overdue))
  }

  predicate RunDeadlinePassed(definition: Definition, state: RunState, now: Time) {
    state.startedAt.Some? && PastDeadline(state.startedAt.value, now, definition.wallMs)
  }
}
