/** Waits, signals, and which signal ends which wait (crates/runtime/src/wait.rs). */
module Waits {
  import opened Wrappers
  import opened Identifiers
  import opened RunEvents

  datatype SignalKind =
    | NamedEvent(name: Identifier)
    | HumanDecision(obligation: Identifier)
    | TimerElapsed

  datatype Signal = Signal(kind: SignalKind, who: Identifier, authorities: set<Identifier>)

  datatype WaitError = NotWaiting | Mismatch | NotDue | Unauthorised

  function Resume(waitingOn: Option<Wait>, signal: Signal, now: Time): (answer: Result<RunEvent, WaitError>)
    ensures answer.Ok? ==> waitingOn.Some? && answer.value == Resumed(waitingOn.value, signal.who)
    ensures answer == Err(NotWaiting) <==> waitingOn.None?
  {
    if waitingOn.None? then Err(NotWaiting)
    else
      match (waitingOn.value, signal.kind)
      case (Timer(until), TimerElapsed) =>
        if until > now then Err(NotDue) else Ok(Resumed(waitingOn.value, signal.who))
      case (Event(name), NamedEvent(arrived)) =>
        if name != arrived then Err(Mismatch) else Ok(Resumed(waitingOn.value, signal.who))
      case (HumanGate(_, obligation), HumanDecision(decided)) =>
        if obligation != decided then Err(Mismatch)
        else if obligation !in signal.authorities then Err(Unauthorised)
        else Ok(Resumed(waitingOn.value, signal.who))
      case _ => Err(Mismatch)
  }

  /** Who may end a wait, and when: a due timer, the named event, or a decision by somebody entitled to it. */
  predicate Ends(wait: Wait, signal: Signal, now: Time) {
    match wait
    case Timer(until) => signal.kind.TimerElapsed? && until <= now
    case Event(name) => signal.kind == NamedEvent(name)
    case HumanGate(_, obligation) => signal.kind == HumanDecision(obligation) && obligation in signal.authorities
  }

  lemma ResumesExactlyWhen(waitingOn: Option<Wait>, signal: Signal, now: Time)
    ensures Resume(waitingOn, signal, now).Ok? <==> waitingOn.Some? && Ends(waitingOn.value, signal, now)
    ensures Resume(waitingOn, signal, now) == Err(Unauthorised) <==>
      && waitingOn.Some? && waitingOn.value.HumanGate?
      && signal.kind == HumanDecision(waitingOn.value.obligation)
      && waitingOn.value.obligation !in signal.authorities
    ensures Resume(waitingOn, signal, now) == Err(NotDue) <==>
      waitingOn.Some? && waitingOn.value.Timer? && signal.kind.TimerElapsed? && waitingOn.value.until > now
  {
  }
}
