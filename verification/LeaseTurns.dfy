/**
 What a leased worker does turn by turn, as a function of the log it finds and of what it meets: clock,
 inbox, executor, heartbeat, and how many appends the store still accepts (`advance_leased` and
 `carry_out` in crates/graph-worker/src/runtime.rs). AdvancingLeases holds the program to it.
 */
module LeaseTurns {
  import opened Wrappers
  import opened Identifiers
  import opened Definition
  import opened RunEvents
  import opened RunStates
  import opened RunEffects
  import RunResults
  import opened Waits
  import opened Stopping
  import opened DecisionCore
  import opened RunProtocol
  import opened GraphWorkers
  import opened LeasedWorkers
  import Text

  datatype Progress = Ended | Suspension | StillRunning | LeaseLost | Stuck

  /** What the executor will answer, should it be asked. */
  datatype Answers = Answers(node: NodeOutcome, effect: EffectOutcome, later: Time)

  /** What the worker meets in one turn: its clock, its inbox, the executor, and the heartbeat's answer. */
  datatype Turn = Turn(now: Time, inbox: seq<PendingSignal>, answers: Answers, alive: bool)

  /** A lease's durable state: what is recorded, asked and consumed, and how many appends the store will accept. */
  datatype Held = Held(log: seq<RecordedEvent>, patience: nat, calls: seq<Call>, consumed: seq<Consumption>)

  // ---- Carrying out a decision. ----

  /** The events to record, in order, and the request to make once the first `after` of them are recorded. */
  datatype Play = Play(script: seq<(RunEvent, Time)>, request: Option<Call>, after: nat)

  /** The one event of a decision that only records something. */
  function EventFor(config: Config, identity: Identifier, state: RunState, decision: Decision, now: Time): Option<RunEvent> {
    match decision
    case Start => Some(Started(identity))
    case HaltUncertainEffect(node, effect) =>
      var claim := FindClaim(state.outstanding, node, effect);
      Some(EffectUncertain(node, effect, if claim.None? then 0 else claim.value.attempt))
    case StopLoop(region, reason) => Some(LoopStopped(region, reason))
    case StartIteration(region, index) =>
      var declared := FindRegion(config.definition.graph.regions, region);
      Some(IterationStarted(region, index, if declared.None? then {} else declared.value.nodes))
    case FinishIteration(region, index) =>
      var record := RecordIteration(config.definition, state, region, index, now);
      if record.None? then None else Some(IterationFinished(region, record.value))
    case CancelRun(who) => Some(Cancelled(who))
    case TimeOutNode(node) =>
      var declared := config.definition.graph.NodeOf(node);
      Some(NodeFailed(node, BudgetExhaustion,
                      "the node passed its declared wall-time budget of "
                      + Text.Decimal(if declared.None? then 0 else declared.value.wallMs) + "ms"))
    case Suspend(wait) => Some(Suspended(wait))
    case ResumeWait(wait) => Some(Resumed(wait, identity))
    case CompleteRun => Some(Completed(RunResults.Flattened(state.finished)))
    case FailRun(reason) => Some(Failed(reason))
    case _ => None
  }

  function PlayEffect(
    epoch: nat, position: nat, state: RunState, attempt: Option<EffectAttempt>, now: Time, answers: Answers): Option<Play>
  {
    if attempt.None? then None
    else
      var after := |ClaimScript(state, attempt.value, now)|;
      Some(Play(EffectScript(state, attempt.value, answers.effect, now, answers.later),
                Some(EffectCall(epoch, attempt.value, position + after - 1, answers.effect)), after))
  }

  /** The claim to make: what an earlier one left behind is taken over, key and all. */
  function ClaimFor(config: Config, state: RunState, node: Identifier, effect: Identifier, attempt: nat, retry: bool):
    Option<EffectAttempt>
  {
    var declared := config.definition.graph.EffectOf(node, effect);
    var left := FindClaim(state.outstanding, node, effect);
    if declared.None? then None
    else if retry && left.Some? then Some(EffectAttempt(node, effect, attempt, left.value.key))
    else Claim(declared.value, config.run, node, attempt)
  }

  /** Everything a decision leads to from a log of that length; `None` when the definition has nothing to do it with. */
  function PlayFor(
    config: Config, identity: Identifier, epoch: nat, position: nat, state: RunState, decision: Decision, now: Time,
    answers: Answers): Option<Play>
  {
    match decision
    case StartNode(node) =>
      if config.definition.graph.NodeOf(node).None? then None
      else Some(Play(NodeScript(node, answers.node, now, answers.later), Some(NodeCall(epoch, node, position)), 1))
    case PerformEffect(node, effect, attempt) =>
      PlayEffect(epoch, position, state, ClaimFor(config, state, node, effect, attempt, false), now, answers)
    case RetryClaimedEffect(node, effect, attempt) =>
      PlayEffect(epoch, position, state, ClaimFor(config, state, node, effect, attempt, true), now, answers)
    case Compensate(compensation) =>
      if config.definition.graph.EffectOf(compensation.node, compensation.effect).None? then None
      else Some(Play([(UndoneAs(compensation, answers.effect), answers.later)],
                     Some(CompensationCall(epoch, compensation)), 0))
    case _ =>
      var event := EventFor(config, identity, state, decision, now);
      if event.None? then None else Some(Play([(event.value, now)], None, 0))
  }

  /** Only a performed compensation counts as one; any other answer fails the run over the effect. */
  function UndoneAs(compensation: Compensation, result: EffectOutcome): RunEvent {
    match result
    case Performed(receipt) => Compensated(compensation.node, compensation.effect, compensation.route, receipt)
    case _ => Failed(EffectDoubt(compensation.node, compensation.effect))
  }

  function Least(a: nat, b: nat): nat {
    if a < b then a else b
  }

  /** The script goes into the log as far as the store accepts it; the request is made only if its events got there. */
  function Played(held: Held, epoch: nat, play: Play): Held {
    var n := Least(held.patience, |play.script|);
    held.(log := held.log + RecordAll(|held.log|, epoch, play.script[..n]),
          patience := held.patience - n,
          calls := held.calls + if play.request.Some? && n >= play.after then [play.request.value] else [])
  }

  // ---- One turn. ----

  /** What happens to the inbox of a run that waits: one signal may resume it, the others are refused. */
  function Consumptions(inbox: seq<PendingSignal>, answer: nat, patience: nat, position: nat): seq<Consumption>
    requires answer <= |inbox|
  {
    seq(if answer < |inbox| && patience == 0 then answer else |inbox|,
        i requires 0 <= i < |inbox| =>
          Consumption(inbox[i].id, if i == answer && patience > 0 then ResumedAt(position) else Refused))
  }

  function SignalsAnswered(held: Held, epoch: nat, wait: Option<Wait>, inbox: seq<PendingSignal>, now: Time): Held {
    var k := FirstAnswer(wait, inbox, now);
    if wait.None? then held
    else
      var consumed := held.consumed + Consumptions(inbox, k, held.patience, |held.log|);
      if k < |inbox| && held.patience > 0 then
        held.(log := held.log + [RecordedEvent(|held.log|, epoch, now, Resumed(wait.value, inbox[k].signal.who))],
              patience := held.patience - 1, consumed := consumed)
      else held.(consumed := consumed)
  }

  datatype Taken = Taken(held: Held, progress: Option<Progress>)

  function Quiet(status: RunStatus): Progress {
    if status.IsTerminal() then Ended else if status.Waiting? then Suspension else StillRunning
  }

  /** One turn; `progress` is set when the worker puts the run down. */
  function TakeTurn(config: Config, identity: Identifier, epoch: nat, held: Held, turn: Turn): Taken {
    match Fold(held.log)
    case Err(_) => Taken(held, Some(Stuck))
    case Ok(state) =>
      var answered := SignalsAnswered(held, epoch, state.waitingOn, turn.inbox, turn.now);
      if FirstAnswer(state.waitingOn, turn.inbox, turn.now) < |turn.inbox| && held.patience > 0 then Taken(answered, None)
      else
        var decision := Decide(config.definition, state, turn.now);
        if decision.Idle? then Taken(answered, Some(Quiet(state.status)))
        else
          match PlayFor(config, identity, epoch, |held.log|, state, decision, turn.now, turn.answers)
          case None => Taken(answered, Some(Stuck))
          case Some(play) =>
            Taken(Played(answered, epoch, play),
                  if answered.patience < |play.script| || !turn.alive then Some(LeaseLost) else None)
  }

  /** A lease over as many turns as it may take; the first turn that puts the run down ends it. */
  function TakeTurns(config: Config, identity: Identifier, epoch: nat, held: Held, turns: seq<Turn>): Taken
    decreases |turns|
  {
    if turns == [] then Taken(held, None)
    else
      var first := TakeTurn(config, identity, epoch, held, turns[0]);
      if first.progress.Some? then first else TakeTurns(config, identity, epoch, first.held, turns[1..])
  }

  // ---- What the definition has to offer. ----

  /** The key source is one the worker knows, spaces around it aside. */
  predicate CanClaim(declared: Effect) {
    declared.idempotency.Keyed? ==>
      Text.Trim(declared.idempotency.keySource) in {"run_id", "run_id+node_id", "run_id+node_id+attempt"}
  }

  predicate AllReported(state: RunState, spec: LoopSpec) {
    && (forall i :: 0 <= i < |spec.invariants| ==>
          var reading := state.ControlOf(spec.invariants[i].evaluator, spec.invariants[i].port);
          reading.Some? && reading.value.Bool?)
    && (spec.progress.Some? ==>
          var reading := state.ControlOf(spec.progress.value.measuredBy, spec.progress.value.port);
          reading.Some? && reading.value.Integer?)
  }

  /** A decision that cannot be carried out, for want of a declaration or of a reading. */
  predicate Lacks(config: Config, state: RunState, decision: Decision) {
    var graph := config.definition.graph;
    match decision
    case StartNode(node) => forall declared :: declared in graph.nodes ==> declared.id != node
    case PerformEffect(node, effect, _) =>
      graph.EffectOf(node, effect).None? || !CanClaim(graph.EffectOf(node, effect).value)
    case RetryClaimedEffect(node, effect, _) =>
      || graph.EffectOf(node, effect).None?
      || (&& (forall claim :: claim in state.outstanding ==> !(claim.node == node && claim.effect == effect))
          && !CanClaim(graph.EffectOf(node, effect).value))
    case Compensate(compensation) => graph.EffectOf(compensation.node, compensation.effect).None?
    case FinishIteration(region, _) =>
      var declared := FindRegion(graph.regions, region);
      declared.None? || declared.value.kind.Plain? || !AllReported(state, declared.value.kind.spec)
    case Idle => true
    case _ => false
  }

  lemma {:induction false} OutcomesExactlyWhen(state: RunState, invariants: seq<LoopInvariant>)
    ensures InvariantOutcomes(state, invariants).Some? <==>
      forall i :: 0 <= i < |invariants| ==>
        var reading := state.ControlOf(invariants[i].evaluator, invariants[i].port);
        reading.Some? && reading.value.Bool?
  {
    hide OutcomesRead;
    if invariants != [] {
      OutcomesExactlyWhen(state, invariants[1..]);
      assert forall i :: 0 <= i < |invariants| - 1 ==> invariants[1..][i] == invariants[i + 1];
      assert forall i :: 1 <= i < |invariants| ==> invariants[i] == invariants[1..][i - 1];
    }
  }

  /** A decision is carried out exactly when the definition has what it needs. */
  lemma PlaysExactlyWhen(
    config: Config, identity: Identifier, epoch: nat, position: nat, state: RunState, decision: Decision, now: Time,
    answers: Answers)
    ensures PlayFor(config, identity, epoch, position, state, decision, now, answers).None? <==>
      Lacks(config, state, decision)
  {
    if decision.FinishIteration? {
      var declared := FindRegion(config.definition.graph.regions, decision.region);
      if declared.Some? && declared.value.kind.Loop? {
        OutcomesExactlyWhen(state, declared.value.kind.spec.invariants);
        hide InvariantOutcomes;
      }
    }
  }

  // ---- What a turn does. ----

  /** Somebody in the inbox may end the wait. */
  predicate Answerable(state: RunState, turn: Turn) {
    state.waitingOn.Some? && exists i :: 0 <= i < |turn.inbox| && Ends(state.waitingOn.value, turn.inbox[i].signal, turn.now)
  }

  lemma AnswerableExactlyWhen(state: RunState, turn: Turn)
    ensures Answerable(state, turn) <==> FirstAnswer(state.waitingOn, turn.inbox, turn.now) < |turn.inbox|
  {
    var k := FirstAnswer(state.waitingOn, turn.inbox, turn.now);
    forall i | 0 <= i < |turn.inbox|
      ensures Resume(state.waitingOn, turn.inbox[i].signal, turn.now).Ok? <==>
        state.waitingOn.Some? && Ends(state.waitingOn.value, turn.inbox[i].signal, turn.now)
    {
      ResumesExactlyWhen(state.waitingOn, turn.inbox[i].signal, turn.now);
    }
    hide Resume, Ends;
  }

  /**
   The inbox comes before any decision: the first signal that may end the wait resumes the run, is consumed
   with the position of its resumption, and every other signal is consumed as refused.
   */
  lemma AnswerComesFirst(
    config: Config, identity: Identifier, epoch: nat, held: Held, turn: Turn, state: RunState, k: nat)
    requires Fold(held.log) == Ok(state) && state.waitingOn.Some? && held.patience > 0
    requires k < |turn.inbox| && Ends(state.waitingOn.value, turn.inbox[k].signal, turn.now)
    requires forall i :: 0 <= i < k ==> !Ends(state.waitingOn.value, turn.inbox[i].signal, turn.now)
    ensures var taken := TakeTurn(config, identity, epoch, held, turn);
            && taken.progress.None?
            && taken.held.log == held.log
               + [RecordedEvent(|held.log|, epoch, turn.now, Resumed(state.waitingOn.value, turn.inbox[k].signal.who))]
            && taken.held.patience == held.patience - 1 && taken.held.calls == held.calls
            && |taken.held.consumed| == |held.consumed| + |turn.inbox|
            && taken.held.consumed[..|held.consumed|] == held.consumed
            && forall i :: 0 <= i < |turn.inbox| ==>
                 taken.held.consumed[|held.consumed| + i] ==
                   Consumption(turn.inbox[i].id, if i == k then ResumedAt(|held.log|) else Refused)
  {
    forall i | 0 <= i < |turn.inbox|
      ensures Resume(state.waitingOn, turn.inbox[i].signal, turn.now).Ok? <==>
        Ends(state.waitingOn.value, turn.inbox[i].signal, turn.now)
    {
      ResumesExactlyWhen(state.waitingOn, turn.inbox[i].signal, turn.now);
    }
    hide Resume, Ends, Fold, Decide, PlayFor;
    assert FirstAnswer(state.waitingOn, turn.inbox, turn.now) == k;
  }

  /** Nothing in the inbox resumes the run, for want of an answer or because the store refuses it. */
  predicate Decides(held: Held, state: RunState, turn: Turn) {
    Fold(held.log) == Ok(state) && (held.patience == 0 || !Answerable(state, turn))
  }

  /** How many events a decision records when nobody interferes. */
  function Length(state: RunState, decision: Decision, answers: Answers): nat {
    match decision
    case StartNode(_) => 2
    case PerformEffect(node, _, _) =>
      (if node in state.running then 1 else 2) + (if answers.effect.Unknown? then 0 else 2)
    case RetryClaimedEffect(node, _, _) =>
      (if node in state.running then 1 else 2) + (if answers.effect.Unknown? then 0 else 2)
    case _ => 1
  }

  lemma PlaysLength(
    config: Config, identity: Identifier, epoch: nat, position: nat, state: RunState, decision: Decision, now: Time,
    answers: Answers)
    ensures var play := PlayFor(config, identity, epoch, position, state, decision, now, answers);
            play.Some? ==> |play.value.script| == Length(state, decision, answers)
  {
    hide EventFor;
  }

  /** The condition of each way a turn can put the run down. */
  ghost predicate PutsDown(config: Config, held: Held, turn: Turn, progress: Progress) {
    match Fold(held.log)
    case Err(_) => progress.Stuck?
    case Ok(state) =>
      var decision := Decide(config.definition, state, turn.now);
      && Decides(held, state, turn)
      && match progress
         case Stuck => !decision.Idle? && Lacks(config, state, decision)
         case LeaseLost =>
           !Lacks(config, state, decision) && (Length(state, decision, turn.answers) > held.patience || !turn.alive)
         case Ended => decision.Idle? && state.status.IsTerminal()
         case Suspension => decision.Idle? && state.status.Waiting?
         case StillRunning => decision.Idle? && !state.status.IsTerminal() && !state.status.Waiting?
  }

  lemma TurnEndsExactlyWhen(
    config: Config, identity: Identifier, epoch: nat, held: Held, turn: Turn, progress: Progress)
    ensures TakeTurn(config, identity, epoch, held, turn).progress == Some(progress) <==>
      PutsDown(config, held, turn, progress)
  {
    var folded := Fold(held.log);
    hide Fold, Decide;
    if folded.Ok? {
      var state := folded.value;
      AnswerableExactlyWhen(state, turn);
      var decision := Decide(config.definition, state, turn.now);
      PlaysExactlyWhen(config, identity, epoch, |held.log|, state, decision, turn.now, turn.answers);
      PlaysLength(config, identity, epoch, |held.log|, state, decision, turn.now, turn.answers);
      hide PlayFor, Answerable, Length, FirstAnswer;
      assert decision.Idle? ==> Lacks(config, state, decision);
      hide Lacks;
    }
  }

  /** The log goes on with this event. */
  predicate GoesOn(held: Held, after: Held, epoch: nat, event: RunEvent, at: Time) {
    && held.log < after.log
    && after.log[|held.log|] == RecordedEvent(|held.log|, epoch, at, event)
  }

  /** How an effect is taken up: its node opens first, unless it is open; then the claim is recorded. */
  predicate TakesUpEffect(
    held: Held, after: Held, epoch: nat, state: RunState, node: Identifier, effect: Identifier, attempt: nat, now: Time)
  {
    if node !in state.running then GoesOn(held, after, epoch, NodeStarted(node), now)
    else
      && held.log < after.log && after.log[|held.log|].event.EffectClaimed?
      && GoesOn(held, after, epoch, EffectClaimed(node, effect, attempt, after.log[|held.log|].event.key), now)
  }

  /** The first thing a decision does, for each decision that can be carried out. */
  ghost predicate MovesOn(
    config: Config, identity: Identifier, epoch: nat, state: RunState, decision: Decision, now: Time,
    held: Held, after: Held)
  {
    match decision
    case Start => GoesOn(held, after, epoch, Started(identity), now)
    case StartNode(node) =>
      && GoesOn(held, after, epoch, NodeStarted(node), now)
      && after.calls == held.calls + [NodeCall(epoch, node, |held.log|)]
    case PerformEffect(node, effect, attempt) => TakesUpEffect(held, after, epoch, state, node, effect, attempt, now)
    case RetryClaimedEffect(node, effect, attempt) => TakesUpEffect(held, after, epoch, state, node, effect, attempt, now)
    case HaltUncertainEffect(node, effect) =>
      var claim := FindClaim(state.outstanding, node, effect);
      GoesOn(held, after, epoch, EffectUncertain(node, effect, if claim.Some? then claim.value.attempt else 0), now)
    case StopLoop(region, reason) => GoesOn(held, after, epoch, LoopStopped(region, reason), now)
    case StartIteration(region, index) =>
      exists members ::
        && GoesOn(held, after, epoch, IterationStarted(region, index, members), now)
        && ResetsItsRegion(config, region, members)
    case FinishIteration(region, index) =>
      exists record ::
        && GoesOn(held, after, epoch, IterationFinished(region, record), now)
        && record.index == index && ReadFromTheLog(config.definition, state, region, record)
    case Compensate(compensation) => after.calls == held.calls + [CompensationCall(epoch, compensation)]
    case CancelRun(who) => GoesOn(held, after, epoch, Cancelled(who), now)
    case TimeOutNode(node) =>
      var declared := config.definition.graph.NodeOf(node);
      var budget := Text.Decimal(if declared.Some? then declared.value.wallMs else 0);
      GoesOn(held, after, epoch,
             NodeFailed(node, BudgetExhaustion, "the node passed its declared wall-time budget of " + budget + "ms"), now)
    case Suspend(wait) => GoesOn(held, after, epoch, Suspended(wait), now)
    case ResumeWait(wait) => GoesOn(held, after, epoch, Resumed(wait, identity), now)
    case CompleteRun => GoesOn(held, after, epoch, Completed(RunResults.Flattened(state.finished)), now)
    case FailRun(reason) => GoesOn(held, after, epoch, Failed(reason), now)
    case Idle => false
  }

  lemma PlayMovesOn(
    config: Config, identity: Identifier, epoch: nat, state: RunState, decision: Decision, now: Time, answers: Answers,
    held: Held)
    requires held.patience > 0
    requires PlayFor(config, identity, epoch, |held.log|, state, decision, now, answers).Some?
    ensures var play := PlayFor(config, identity, epoch, |held.log|, state, decision, now, answers).value;
            MovesOn(config, identity, epoch, state, decision, now, held, Played(held, epoch, play))
  {
    var play := PlayFor(config, identity, epoch, |held.log|, state, decision, now, answers).value;
    var after := Played(held, epoch, play);
    if decision.PerformEffect? || decision.RetryClaimedEffect? {
      EffectMovesOn(config, epoch, state, decision, now, answers, held);
    } else if play.script != [] {
      FirstIsRecorded(held, epoch, play);
      hide Played, ReadFromTheLog, ResetsItsRegion, RunResults.Flattened;
    }
  }

  lemma FirstIsRecorded(held: Held, epoch: nat, play: Play)
    requires held.patience > 0 && play.script != []
    ensures GoesOn(held, Played(held, epoch, play), epoch, play.script[0].0, play.script[0].1)
    ensures play.after <= 1 ==>
      Played(held, epoch, play).calls == held.calls + if play.request.Some? then [play.request.value] else []
  {
    var n := Least(held.patience, |play.script|);
    assert play.script[..n][0] == play.script[0];
  }

  lemma EffectMovesOn(
    config: Config, epoch: nat, state: RunState, decision: Decision, now: Time, answers: Answers, held: Held)
    requires held.patience > 0 && (decision.PerformEffect? || decision.RetryClaimedEffect?)
    requires PlayFor(config, "", epoch, |held.log|, state, decision, now, answers).Some?
    ensures var play := PlayFor(config, "", epoch, |held.log|, state, decision, now, answers).value;
            TakesUpEffect(held, Played(held, epoch, play), epoch, state, decision.node, decision.effect, decision.attempt, now)
  {
    var play := PlayFor(config, "", epoch, |held.log|, state, decision, now, answers).value;
    FirstIsRecorded(held, epoch, play);
    hide Played;
  }

  /** A decision that the definition can carry out is carried out: the log or the requests grow by its first step. */
  lemma DecisionIsCarriedOut(
    config: Config, identity: Identifier, epoch: nat, held: Held, turn: Turn, state: RunState)
    requires Decides(held, state, turn) && held.patience > 0
    requires !Lacks(config, state, Decide(config.definition, state, turn.now))
    ensures MovesOn(config, identity, epoch, state, Decide(config.definition, state, turn.now), turn.now,
                    held, TakeTurn(config, identity, epoch, held, turn).held)
  {
    var decision := Decide(config.definition, state, turn.now);
    var answered, play := TurnPlays(config, identity, epoch, held, turn, state);
    hide TakeTurn, Decide, PlayFor, Lacks, Decides;
    PlayMovesOn(config, identity, epoch, state, decision, turn.now, turn.answers, answered);
    hide Played;
    SameStart(config, identity, epoch, state, decision, turn.now, held, answered, Played(answered, epoch, play));
  }

  /** A turn that decides plays the decision on what the inbox left. */
  lemma TurnPlays(config: Config, identity: Identifier, epoch: nat, held: Held, turn: Turn, state: RunState)
    returns (answered: Held, play: Play)
    requires Decides(held, state, turn) && !Lacks(config, state, Decide(config.definition, state, turn.now))
    ensures answered.log == held.log && answered.patience == held.patience && answered.calls == held.calls
    ensures PlayFor(config, identity, epoch, |held.log|, state, Decide(config.definition, state, turn.now), turn.now,
                    turn.answers) == Some(play)
    ensures TakeTurn(config, identity, epoch, held, turn).held == Played(answered, epoch, play)
  {
    var decision := Decide(config.definition, state, turn.now);
    AnswerableExactlyWhen(state, turn);
    PlaysExactlyWhen(config, identity, epoch, |held.log|, state, decision, turn.now, turn.answers);
    assert !decision.Idle?;
    hide Lacks, PlayFor, Decide, Fold, FirstAnswer, Answerable, Played;
    answered := SignalsAnswered(held, epoch, state.waitingOn, turn.inbox, turn.now);
    play := PlayFor(config, identity, epoch, |held.log|, state, decision, turn.now, turn.answers).value;
  }

  lemma SameStart(
    config: Config, identity: Identifier, epoch: nat, state: RunState, decision: Decision, now: Time,
    held: Held, answered: Held, after: Held)
    requires answered.log == held.log && answered.calls == held.calls
    requires MovesOn(config, identity, epoch, state, decision, now, answered, after)
    ensures MovesOn(config, identity, epoch, state, decision, now, held, after)
  {
    assert forall event, at :: GoesOn(held, after, epoch, event, at) <==> GoesOn(answered, after, epoch, event, at);
    hide GoesOn, ReadFromTheLog, ResetsItsRegion;
  }

  // ---- Whole leases. ----

  /** Turns follow on one another: what a lease does after some turns is what it does from where those leave it. */
  lemma {:induction false} TurnsCompose(
    config: Config, identity: Identifier, epoch: nat, held: Held, first: seq<Turn>, rest: seq<Turn>)
    ensures var taken := TakeTurns(config, identity, epoch, held, first);
            TakeTurns(config, identity, epoch, held, first + rest) ==
              if taken.progress.Some? then taken else TakeTurns(config, identity, epoch, taken.held, rest)
    decreases |first|
  {
    hide TakeTurn;
    if first == [] {
      assert first + rest == rest;
    } else {
      assert (first + rest)[1..] == first[1..] + rest && (first + rest)[0] == first[0];
      TurnsCompose(config, identity, epoch, TakeTurn(config, identity, epoch, held, first[0]).held, first[1..], rest);
    }
  }

  /** A lease ends with the first turn that puts the run down, or when its turns are used up. */
  lemma {:induction false} LeaseEndsWithATurn(
    config: Config, identity: Identifier, epoch: nat, held: Held, turns: seq<Turn>) returns (n: nat)
    ensures n <= |turns|
    ensures forall i :: 0 <= i <= n ==> TakeTurns(config, identity, epoch, held, turns[..i]).progress.None?
    ensures var taken := TakeTurns(config, identity, epoch, held, turns);
            if n == |turns| then taken.progress.None?
            else
              && taken.progress.Some?
              && taken == TakeTurn(config, identity, epoch, TakeTurns(config, identity, epoch, held, turns[..n]).held, turns[n])
    decreases |turns|
  {
    hide TakeTurn;
    if turns == [] {
      n := 0;
    } else {
      var before, last := turns[..|turns| - 1], turns[|turns| - 1];
      n := LeaseEndsWithATurn(config, identity, epoch, held, before);
      assert forall i :: 0 <= i <= |before| ==> turns[..i] == before[..i];
      assert before + [last] == turns && turns[..|turns|] == turns && before[..|before|] == before;
      TurnsCompose(config, identity, epoch, held, before, [last]);
      var reached := TakeTurns(config, identity, epoch, held, before);
      if reached.progress.None? {
        var taken := TakeTurn(config, identity, epoch, reached.held, last);
        assert [last][1..] == [] && TakeTurns(config, identity, epoch, reached.held, [last]) == taken;
        n := if taken.progress.None? then |turns| else |before|;
      }
    }
  }

  /** A lease reports a progress exactly when the first turn that puts the run down does so that way. */
  lemma LeaseEndsExactlyWhen(
    config: Config, identity: Identifier, epoch: nat, held: Held, turns: seq<Turn>, progress: Progress)
    ensures TakeTurns(config, identity, epoch, held, turns).progress == Some(progress) <==>
      exists n :: (
        && 0 <= n < |turns|
        && TakeTurns(config, identity, epoch, held, turns[..n]).progress.None?
        && PutsDown(config, TakeTurns(config, identity, epoch, held, turns[..n]).held, turns[n], progress))
  {
    hide TakeTurn, PutsDown;
    var n := LeaseEndsWithATurn(config, identity, epoch, held, turns);
    if n < |turns| {
      var reached := TakeTurns(config, identity, epoch, held, turns[..n]).held;
      TurnEndsExactlyWhen(config, identity, epoch, reached, turns[n], progress);
    }
    forall m | 0 <= m < |turns| && TakeTurns(config, identity, epoch, held, turns[..m]).progress.None?
      ensures var reached := TakeTurns(config, identity, epoch, held, turns[..m]).held;
              PutsDown(config, reached, turns[m], progress) ==>
                TakeTurns(config, identity, epoch, held, turns).progress == Some(progress)
    {
      var reached := TakeTurns(config, identity, epoch, held, turns[..m]).held;
      TurnEndsExactlyWhen(config, identity, epoch, reached, turns[m], progress);
      assert turns[..m] + turns[m..] == turns && turns[m..][0] == turns[m];
      TurnsCompose(config, identity, epoch, held, turns[..m], turns[m..]);
    }
  }

  /** The log only grows, and every event in it uses up one append the store accepts. */
  lemma TurnSpendsPatience(config: Config, identity: Identifier, epoch: nat, held: Held, turn: Turn)
    ensures var after := TakeTurn(config, identity, epoch, held, turn).held;
            && held.log <= after.log && held.calls <= after.calls && held.consumed <= after.consumed
            && |after.log| + after.patience == |held.log| + held.patience
            && |after.calls| <= |held.calls| + 1
            && forall p :: |held.log| <= p < |after.log| ==> after.log[p].position == p && after.log[p].epoch == epoch
  {
    hide Fold, Decide, PlayFor, FirstAnswer;
  }

  lemma {:induction false} LeaseSpendsPatience(
    config: Config, identity: Identifier, epoch: nat, held: Held, turns: seq<Turn>)
    ensures var after := TakeTurns(config, identity, epoch, held, turns).held;
            && held.log <= after.log && held.calls <= after.calls && held.consumed <= after.consumed
            && |after.log| + after.patience == |held.log| + held.patience
            && |after.calls| <= |held.calls| + |turns|
            && forall p :: |held.log| <= p < |after.log| ==> after.log[p].position == p && after.log[p].epoch == epoch
    decreases |turns|
  {
    hide TakeTurn;
    if turns != [] {
      TurnSpendsPatience(config, identity, epoch, held, turns[0]);
      LeaseSpendsPatience(config, identity, epoch, TakeTurn(config, identity, epoch, held, turns[0]).held, turns[1..]);
    }
  }

  /**
   A refused append does not always end in `LeaseLost`: when it is a resumption that the store refuses, the
   worker goes on to decide, and a run that only waits is reported as suspended, its signal still unanswered.
   */
  lemma RefusedResumptionLooksSuspended(
    config: Config, identity: Identifier, epoch: nat, held: Held, turn: Turn, state: RunState)
    requires Fold(held.log) == Ok(state) && Answerable(state, turn) && held.patience == 0
    ensures var taken, decision := TakeTurn(config, identity, epoch, held, turn), Decide(config.definition, state, turn.now);
            && taken.held.log == held.log
            && (decision.Idle? ==> taken.progress == Some(Quiet(state.status)))
            && (taken.progress == Some(LeaseLost) <==> !Lacks(config, state, decision))
  {
    TurnEndsExactlyWhen(config, identity, epoch, held, turn, LeaseLost);
    TurnEndsExactlyWhen(config, identity, epoch, held, turn, Quiet(state.status));
    assert Length(state, Decide(config.definition, state, turn.now), turn.answers) > 0;
    hide Length;
    TurnSpendsPatience(config, identity, epoch, held, turn);
    hide TakeTurn, Decide, Fold, Answerable, Lacks;
  }
}
