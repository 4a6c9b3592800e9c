/**
 One worker under one lease, as the program runs it (crates/graph-worker/src/runtime.rs): the
 durable log and the inbox change call by call. `patience` is how many appends the store still
 accepts before a later lease supersedes this one, so every takeover point is covered by
 quantifying over it. The executor's answers are parameters.
 */
module LeasedWorkers {
  import opened Wrappers
  import opened Identifiers
  import opened Definition
  import opened RunEvents
  import opened RunStates
  import opened RunEffects
  import opened Waits
  import opened Stopping
  import opened RunProtocol
  import opened GraphWorkers

  datatype PendingSignal = PendingSignal(id: nat, signal: Signal)

  datatype SignalOutcome = ResumedAt(position: nat) | Refused

  datatype Consumption = Consumption(id: nat, outcome: SignalOutcome)

  /** The events as the store records them from a position on. */
  function RecordAll(position: nat, epoch: nat, script: seq<(RunEvent, Time)>): (records: seq<RecordedEvent>)
    ensures |records| == |script|
    ensures forall i :: 0 <= i < |script| ==>
      records[i] == RecordedEvent(position + i, epoch, script[i].1, script[i].0)
  {
    seq(|script|, i requires 0 <= i < |script| => RecordedEvent(position + i, epoch, script[i].1, script[i].0))
  }

  lemma RecordOneMore(position: nat, epoch: nat, script: seq<(RunEvent, Time)>, n: nat)
    requires n < |script|
    ensures RecordAll(position, epoch, script[..n + 1]) ==
      RecordAll(position, epoch, script[..n]) + [RecordedEvent(position + n, epoch, script[n].1, script[n].0)]
  {
  }

  function NodeScript(node: Identifier, outcome: NodeOutcome, now: Time, later: Time): seq<(RunEvent, Time)> {
    [(NodeStarted(node), now), (PendingEvent(ClosingNode(node, outcome)).value, later)]
  }

  /** What an effect's outcome adds to the log: two events, or none when nobody knows. */
  function Resolution(attempt: EffectAttempt, result: EffectOutcome, later: Time): seq<(RunEvent, Time)> {
    match result
    case Performed(receipt) =>
      [(attempt.Finalized(receipt), later), (NodeFinished(attempt.node, map[], map[]), later)]
    case Declined(failure, detail) =>
      [(attempt.Abandoned(detail), later), (NodeFailed(attempt.node, failure, detail), later)]
    case Unknown => []
  }

  function ClaimScript(state: RunState, attempt: EffectAttempt, now: Time): seq<(RunEvent, Time)> {
    (if attempt.node in state.running then [] else [(NodeStarted(attempt.node), now)]) + [(attempt.Claimed(), now)]
  }

  function EffectScript(state: RunState, attempt: EffectAttempt, result: EffectOutcome, now: Time, later: Time):
    seq<(RunEvent, Time)>
  {
    ClaimScript(state, attempt, now) + Resolution(attempt, result, later)
  }

  /** The first signal in the inbox that ends the wait. */
  function FirstAnswer(wait: Option<Wait>, inbox: seq<PendingSignal>, now: Time): (k: nat)
    ensures k <= |inbox|
    ensures k < |inbox| ==> Resume(wait, inbox[k].signal, now).Ok?
    ensures forall i :: 0 <= i < k ==> Resume(wait, inbox[i].signal, now).Err?
  {
    if inbox == [] || Resume(wait, inbox[0].signal, now).Ok? then 0
    else
      var rest := FirstAnswer(wait, inbox[1..], now);
      assert forall i :: 0 <= i < |inbox| - 1 ==> inbox[1..][i] == inbox[i + 1];
      rest + 1
  }

  class Lease {
    const epoch: nat
    var log: seq<RecordedEvent>
    var patience: nat
    var calls: seq<Call>
    var consumed: seq<Consumption>

    constructor (epoch: nat, log: seq<RecordedEvent>, patience: nat)
      ensures this.epoch == epoch && this.log == log && this.patience == patience
      ensures calls == [] && consumed == []
    {
      this.epoch := epoch;
      this.log := log;
      this.patience := patience;
      calls := [];
      consumed := [];
    }

    /** Appends under the lease's epoch; `None` means somebody else owns the run now. */
    method AppendRecorded(event: RunEvent, at: Time) returns (position: Option<nat>)
      modifies this`log, this`patience
      ensures old(patience) == 0 ==> position.None? && log == old(log) && patience == 0
      ensures old(patience) > 0 ==>
        && position == Some(|old(log)|) && patience == old(patience) - 1
        && log == old(log) + [RecordedEvent(|old(log)|, epoch, at, event)]
    {
      if patience == 0 {
        return None;
      }
      position := Some(|log|);
      log := log + [RecordedEvent(|log|, epoch, at, event)];
      patience := patience - 1;
    }

    method Append(event: RunEvent, at: Time) returns (owns: bool)
      modifies this`log, this`patience
      ensures owns <==> old(patience) > 0
      ensures patience == if owns then old(patience) - 1 else 0
      ensures log == old(log) + if owns then [RecordedEvent(|old(log)|, epoch, at, event)] else []
    {
      var position := AppendRecorded(event, at);
      owns := position.Some?;
    }

    /** Since `base` the log grew by exactly the first `n` events of a script. */
    ghost predicate Wrote(base: seq<RecordedEvent>, script: seq<(RunEvent, Time)>, n: nat)
      reads this`log
    {
      n <= |script| && log == base + RecordAll(|base|, epoch, script[..n])
    }

    /** Appends the next event of a script. */
    method AppendNext(
      ghost base: seq<RecordedEvent>, ghost script: seq<(RunEvent, Time)>, ghost n: nat, event: RunEvent, at: Time)
      returns (owns: bool)
      requires Wrote(base, script, n) && n < |script| && script[n] == (event, at)
      modifies this`log, this`patience
      ensures owns <==> old(patience) > 0
      ensures patience == if owns then old(patience) - 1 else 0
      ensures Wrote(base, script, if owns then n + 1 else n)
      ensures owns ==> |log| == |base| + n + 1
    {
      owns := Append(event, at);
      RecordOneMore(|base|, epoch, script, n);
    }

    /** The node's start goes into the log first; the executor is asked only if it got there. */
    method RunNode(node: Identifier, outcome: NodeOutcome, now: Time, later: Time) returns (owns: bool)
      modifies this`log, this`patience, this`calls
      ensures var script := NodeScript(node, outcome, now, later);
              && Wrote(old(log), script, if old(patience) < |script| then old(patience) else |script|)
              && patience == (if old(patience) < |script| then 0 else old(patience) - |script|)
              && (owns <==> old(patience) >= |script|)
      ensures calls == old(calls) + if old(patience) >= 1 then [NodeCall(epoch, node, |old(log)|)] else []
    {
      ghost var script := NodeScript(node, outcome, now, later);
      assert Wrote(log, script, 0);
      owns := AppendNext(old(log), script, 0, NodeStarted(node), now);
      if !owns {
        return;
      }
      calls := calls + [NodeCall(epoch, node, |log| - 1)];
      var event;
      match outcome {
        case NodeDone(outputs, control) => event := NodeFinished(node, outputs, control);
        case NodeRefused(failure, detail) => event := NodeFailed(node, failure, detail);
      }
      owns := AppendNext(old(log), script, 1, event, later);
    }

    /**
     Claim, then perform, then record how it came out. What the call adds to the log is a contiguous
     prefix of its script, and the far side is asked only once the claim is in the log.
     */
    method PerformEffect(state: RunState, attempt: EffectAttempt, result: EffectOutcome, now: Time, later: Time)
      returns (owns: bool)
      modifies this`log, this`patience, this`calls
      ensures var script := EffectScript(state, attempt, result, now, later);
              && Wrote(old(log), script, if old(patience) < |script| then old(patience) else |script|)
              && patience == (if old(patience) < |script| then 0 else old(patience) - |script|)
              && (owns <==> old(patience) >= |script|)
      ensures var claim := |ClaimScript(state, attempt, now)|;
              calls == old(calls) +
                if old(patience) >= claim
                then [EffectCall(epoch, attempt, |old(log)| + claim - 1, result)] else []
    {
      ghost var script := EffectScript(state, attempt, result, now, later);
      ghost var n := |ClaimScript(state, attempt, now)| - 1;
      assert Wrote(log, script, 0);
      hide Wrote;
      if attempt.node !in state.running {
        owns := AppendNext(old(log), script, 0, NodeStarted(attempt.node), now);
        if !owns {
          return;
        }
      }
      owns := AppendNext(old(log), script, n, attempt.Claimed(), now);
      if !owns {
        return;
      }
      calls := calls + [EffectCall(epoch, attempt, |log| - 1, result)];
      match result {
        case Performed(receipt) =>
          owns := AppendNext(old(log), script, n + 1, attempt.Finalized(receipt), later);
          if !owns {
            return;
          }
          owns := AppendNext(old(log), script, n + 2, NodeFinished(attempt.node, map[], map[]), later);
        case Declined(failure, detail) =>
          owns := AppendNext(old(log), script, n + 1, attempt.Abandoned(detail), later);
          if !owns {
            return;
          }
          owns := AppendNext(old(log), script, n + 2, NodeFailed(attempt.node, failure, detail), later);
        case Unknown =>
      }
    }

    /** Undoes an effect. The executor is asked first; only the outcome is recorded. */
    method Compensate(compensation: Compensation, result: EffectOutcome, later: Time) returns (owns: bool)
      modifies this`log, this`patience, this`calls
      ensures calls == old(calls) + [CompensationCall(epoch, compensation)]
      ensures owns <==> old(patience) > 0
      ensures patience == if owns then old(patience) - 1 else 0
      ensures log == old(log) +
        if owns
        then [RecordedEvent(|old(log)|, epoch, later, PendingEvent(RecordingCompensation(compensation, result)).value)]
        else []
    {
      calls := calls + [CompensationCall(epoch, compensation)];
      if result.Performed? {
        owns := Append(Compensated(compensation.node, compensation.effect, compensation.route, result.receipt), later);
      } else {
        owns := Append(Failed(EffectDoubt(compensation.node, compensation.effect)), later);
      }
    }

    /**
     Answers the inbox. A run that is not waiting keeps its inbox and its log; a waiting run consumes
     every signal, resumes on the first that answers its wait and refuses all the others; when the
     resumption is refused by the store, only the signals before it were consumed.
     */
    method AnswerSignals(wait: Option<Wait>, inbox: seq<PendingSignal>, now: Time) returns (resumed: bool)
      modifies this`log, this`patience, this`consumed
      ensures wait.None? ==> !resumed && log == old(log) && consumed == old(consumed)
      ensures var k := FirstAnswer(wait, inbox, now);
              && (resumed <==> k < |inbox| && old(patience) > 0)
              && patience == (if resumed then old(patience) - 1 else old(patience))
              && log == old(log) +
                 (if resumed then [RecordedEvent(|old(log)|, epoch, now, Resumed(wait.value, inbox[k].signal.who))]
                  else [])
      ensures var k := FirstAnswer(wait, inbox, now);
              wait.Some? ==>
                && |old(consumed)| <= |consumed| && consumed[..|old(consumed)|] == old(consumed)
                && |consumed| - |old(consumed)| == (if k < |inbox| && !resumed then k else |inbox|)
                && forall i :: 0 <= i < |consumed| - |old(consumed)| ==>
                     consumed[|old(consumed)| + i] ==
                       Consumption(inbox[i].id, if resumed && i == k then ResumedAt(|old(log)|) else Refused)
    {
      resumed := false;
      ghost var k := FirstAnswer(wait, inbox, now);
      for i := 0 to |inbox|
        invariant resumed <==> k < i && old(patience) > 0
        invariant k < i ==> old(patience) > 0 && wait.Some?
        invariant patience == if resumed then old(patience) - 1 else old(patience)
        invariant log == old(log) +
          (if resumed then [RecordedEvent(|old(log)|, epoch, now, Resumed(wait.value, inbox[k].signal.who))] else [])
        invariant wait.None? ==> consumed == old(consumed)
        invariant wait.Some? ==>
          && |consumed| == |old(consumed)| + i && consumed[..|old(consumed)|] == old(consumed)
          && forall j :: 0 <= j < i ==>
               consumed[|old(consumed)| + j] ==
                 Consumption(inbox[j].id, if resumed && j == k then ResumedAt(|old(log)|) else Refused)
      {
        var outcome := Refused;
        if !resumed {
          match Resume(wait, inbox[i].signal, now) {
            case Ok(event) =>
              assert i == k;
              var position := AppendRecorded(event, now);
              if position.None? {
                return;
              }
              resumed := true;
              outcome := ResumedAt(position.value);
            case Err(NotWaiting) =>
              continue;
            case Err(_) =>
          }
        }
        consumed := consumed + [Consumption(inbox[i].id, outcome)];
      }
    }
  }

  lemma ReadsOneMore(state: RunState, invariants: seq<LoopInvariant>, i: nat, held: bool)
    requires i < |invariants|
    requires state.ControlOf(invariants[i].evaluator, invariants[i].port) == Some(Bool(held))
    ensures var rest, more := InvariantOutcomes(state, invariants[i + 1..]), InvariantOutcomes(state, invariants[i..]);
            && (more.Some? <==> rest.Some?)
            && (rest.Some? ==>
                  more.value == [InvariantOutcome(invariants[i].id, held, invariants[i].timing)] + rest.value)
  {
    hide OutcomesRead;
    assert invariants[i..][1..] == invariants[i + 1..] && invariants[i..][0] == invariants[i];
  }

  /** Reads every declared invariant; one that was not reported stops the reading. */
  method ReadInvariants(state: RunState, invariants: seq<LoopInvariant>) returns (outcomes: Option<seq<InvariantOutcome>>)
    ensures outcomes == InvariantOutcomes(state, invariants)
  {
    hide OutcomesRead;
    var done: seq<InvariantOutcome> := [];
    for i := 0 to |invariants|
      invariant InvariantOutcomes(state, invariants).Some? <==> InvariantOutcomes(state, invariants[i..]).Some?
      invariant InvariantOutcomes(state, invariants).Some? ==>
        InvariantOutcomes(state, invariants).value == done + InvariantOutcomes(state, invariants[i..]).value
    {
      var declared := invariants[i];
      match state.ControlOf(declared.evaluator, declared.port) {
        case Some(Bool(held)) =>
          ReadsOneMore(state, invariants, i, held);
          done := done + [InvariantOutcome(declared.id, held, declared.timing)];
        case _ =>
          return None;
      }
    }
    assert invariants[|invariants|..] == [] && done + [] == done;
    assert InvariantOutcomes(state, []) == Some([]);
    return Some(done);
  }

  // ---- The program and the interleaving model agree. ----

  function Rank(phase: Phase): nat {
    match phase
    case OpeningEffect(_) => 6
    case ClaimingEffect(_) => 5
    case OpeningNode(_) => 4
    case PerformingEffect(_, _) => 4
    case RunningNode(_, _) => 3
    case ResolvingEffect(_, _) => 3
    case ClosingEffect(_, _) => 2
    case ClosingNode(_, _) => 2
    case Appending(_) => 2
    case RecordingCompensation(_, _) => 2
    case _ => 1
  }

  /** The events the interleaving model's worker appends from a phase on, until it folds again. */
  function PhaseScript(phase: Phase, outcome: NodeOutcome, result: EffectOutcome): seq<RunEvent>
    decreases Rank(phase)
  {
    match PendingEvent(phase)
    case Some(event) => [event] + PhaseScript(PhaseAfterAppend(phase, 0), outcome, result)
    case None =>
      match phase
      case RunningNode(node, _) => PhaseScript(ClosingNode(node, outcome), outcome, result)
      case PerformingEffect(attempt, _) =>
        if result.Unknown? then [] else PhaseScript(ResolvingEffect(attempt, result), outcome, result)
      case _ => []
  }

  function Events(script: seq<(RunEvent, Time)>): seq<RunEvent> {
    seq(|script|, i requires 0 <= i < |script| => script[i].0)
  }

  /** Left alone, a worker of the interleaving model appends exactly what the program writes. */
  lemma ProgramFollowsPhases(
    state: RunState, attempt: EffectAttempt, node: Identifier, outcome: NodeOutcome, result: EffectOutcome,
    now: Time, later: Time)
    ensures Events(NodeScript(node, outcome, now, later)) == PhaseScript(OpeningNode(node), outcome, result)
    ensures Events(EffectScript(state, attempt, result, now, later)) ==
      PhaseScript(BeginEffect(state, attempt), outcome, result)
  {
    assert PhaseScript(Ready, outcome, result) == [];
    var closing := ClosingNode(node, outcome);
    assert PhaseScript(closing, outcome, result) == [PendingEvent(closing).value];
    assert PhaseScript(RunningNode(node, 0), outcome, result) == [PendingEvent(closing).value];
    var resolution := Events(Resolution(attempt, result, later));
    if !result.Unknown? {
      var closed := ClosingEffect(attempt, result);
      assert PhaseScript(closed, outcome, result) == [PendingEvent(closed).value];
      assert PhaseScript(ResolvingEffect(attempt, result), outcome, result) == resolution;
    }
    assert PhaseScript(PerformingEffect(attempt, 0), outcome, result) == resolution;
    assert PhaseScript(ClaimingEffect(attempt), outcome, result) == [attempt.Claimed()] + resolution;
  }
}
