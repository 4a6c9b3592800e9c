/**
 A whole lease as the program runs it: fold, answer the inbox, decide, carry out, again
 (`advance_leased` in crates/graph-worker/src/runtime.rs). It does exactly what LeaseTurns says, and
 whatever it does to the log and asks of the executor is what some sequence of steps of the interleaving
 model does, so every result about that model is a result about the program.
 */
module AdvancingLeases {
  import opened Wrappers
  import opened Identifiers
  import opened RunEvents
  import opened RunStates
  import opened RunEffects
  import opened Waits
  import opened Stopping
  import opened DecisionCore
  import opened RunProtocol
  import opened GraphWorkers
  import opened LeasedWorkers
  import opened LeaseTurns

  ghost predicate Reaches(config: Config, s: System, t: System) {
    exists steps :: t == Run(config, s, steps)
  }

  lemma ReachesSelf(config: Config, s: System)
    ensures Reaches(config, s, s)
  {
    assert s == Run(config, s, []);
  }

  lemma ReachesStep(config: Config, s: System, t: System, step: Step)
    requires Reaches(config, s, t)
    ensures Reaches(config, s, Do(config, t, step))
  {
    hide Do;
    var steps :| t == Run(config, s, steps);
    assert (steps + [step])[..|steps|] == steps;
    assert Do(config, t, step) == Run(config, s, steps + [step]);
  }

  /** The worker holds the run's current lease and is in this phase. */
  predicate Owner(s: System, w: WorkerId, phase: Phase) {
    w in s.workers && s.workers[w].epoch == s.epoch && s.workers[w].phase == phase
  }

  /** The time the worker last folded for. */
  predicate Clock(s: System, w: WorkerId, now: Time) {
    w in s.workers && s.workers[w].now == now
  }

  /** What one step adds. */
  predicate Adds(s: System, t: System, log: seq<RecordedEvent>, calls: seq<Call>) {
    t.epoch == s.epoch && t.log == s.log + log && t.calls == s.calls + calls
  }

  lemma Appends(config: Config, s: System, w: WorkerId, phase: Phase, event: RunEvent, at: Time) returns (t: System)
    requires Owner(s, w, phase) && PendingEvent(phase) == Some(event)
    requires ByDecision(phase) ==> Clock(s, w, at)
    ensures t == Do(config, s, Append(w, at)) && Owner(t, w, PhaseAfterAppend(phase, |s.log|))
    ensures forall now :: Clock(s, w, now) ==> Clock(t, w, now)
    ensures Adds(s, t, [RecordedEvent(|s.log|, s.epoch, at, event)], [])
  {
    hide PendingEvent, PhaseAfterAppend;
    t := Do(config, s, Append(w, at));
  }

  lemma Asks(config: Config, s: System, w: WorkerId, attempt: EffectAttempt, p: nat, result: EffectOutcome)
    returns (t: System)
    requires Owner(s, w, PerformingEffect(attempt, p))
    ensures t == Do(config, s, PerformIt(w, result))
    ensures Owner(t, w, if result.Unknown? then Ready else ResolvingEffect(attempt, result))
    ensures Adds(s, t, [], [EffectCall(s.epoch, attempt, p, result)])
  {
    t := Do(config, s, PerformIt(w, result));
  }

  lemma Runs(config: Config, s: System, w: WorkerId, node: Identifier, p: nat, outcome: NodeOutcome) returns (t: System)
    requires Owner(s, w, RunningNode(node, p))
    ensures t == Do(config, s, GraphWorkers.RunNode(w, outcome)) && Owner(t, w, ClosingNode(node, outcome))
    ensures Adds(s, t, [], [NodeCall(s.epoch, node, p)])
  {
    t := Do(config, s, GraphWorkers.RunNode(w, outcome));
  }

  /** However far a node's script gets, the interleaving model gets there too. */
  lemma NodeMatches(
    config: Config, first: System, s: System, w: WorkerId, node: Identifier, outcome: NodeOutcome,
    now: Time, later: Time, k: nat)
    returns (t: System)
    requires Reaches(config, first, s) && Owner(s, w, OpeningNode(node)) && Clock(s, w, now) && k <= 2
    ensures Reaches(config, first, t)
    ensures Adds(s, t, RecordAll(|s.log|, s.epoch, NodeScript(node, outcome, now, later)[..k]),
                 if k == 0 then [] else [NodeCall(s.epoch, node, |s.log|)])
    ensures k == 2 ==> Owner(t, w, Ready)
  {
    hide Reaches, Do;
    var script := NodeScript(node, outcome, now, later);
    t := s;
    if k >= 1 {
      var u := Appends(config, s, w, OpeningNode(node), NodeStarted(node), now);
      ReachesStep(config, first, s, Append(w, now));
      t := Runs(config, u, w, node, |s.log|, outcome);
      ReachesStep(config, first, u, GraphWorkers.RunNode(w, outcome));
      RecordOneMore(|s.log|, s.epoch, script, 0);
    }
    if k == 2 {
      var u := t;
      t := Appends(config, u, w, ClosingNode(node, outcome), script[1].0, later);
      ReachesStep(config, first, u, Append(w, later));
      RecordOneMore(|s.log|, s.epoch, script, 1);
    }
  }

  lemma ClaimMatches(
    config: Config, first: System, s: System, w: WorkerId, state: RunState, attempt: EffectAttempt, now: Time, k: nat)
    returns (t: System)
    requires Reaches(config, first, s) && Owner(s, w, BeginEffect(state, attempt)) && Clock(s, w, now)
    requires k <= |ClaimScript(state, attempt, now)|
    ensures Reaches(config, first, t)
    ensures var script := ClaimScript(state, attempt, now);
            && Adds(s, t, RecordAll(|s.log|, s.epoch, script[..k]), [])
            && (k == |script| ==> Owner(t, w, PerformingEffect(attempt, |s.log| + k - 1)))
  {
    hide Reaches, Do;
    var script := ClaimScript(state, attempt, now);
    t := s;
    if k >= 1 {
      t := Appends(config, s, w, BeginEffect(state, attempt), script[0].0, now);
      ReachesStep(config, first, s, Append(w, now));
      RecordOneMore(|s.log|, s.epoch, script, 0);
    }
    if k == 2 {
      var u := t;
      t := Appends(config, u, w, ClaimingEffect(attempt), attempt.Claimed(), now);
      ReachesStep(config, first, u, Append(w, now));
      RecordOneMore(|s.log|, s.epoch, script, 1);
    }
  }

  lemma ResolutionMatches(
    config: Config, first: System, s: System, w: WorkerId, attempt: EffectAttempt, p: nat, result: EffectOutcome,
    later: Time, k: nat)
    returns (t: System)
    requires Reaches(config, first, s) && Owner(s, w, PerformingEffect(attempt, p))
    requires k <= |Resolution(attempt, result, later)|
    ensures Reaches(config, first, t)
    ensures var script := Resolution(attempt, result, later);
            && Adds(s, t, RecordAll(|s.log|, s.epoch, script[..k]), [EffectCall(s.epoch, attempt, p, result)])
            && (k == |script| ==> Owner(t, w, Ready))
  {
    hide Reaches, Do;
    var script := Resolution(attempt, result, later);
    t := Asks(config, s, w, attempt, p, result);
    ReachesStep(config, first, s, PerformIt(w, result));
    if k >= 1 {
      var u := t;
      t := Appends(config, u, w, ResolvingEffect(attempt, result), script[0].0, later);
      ReachesStep(config, first, u, Append(w, later));
      RecordOneMore(|s.log|, s.epoch, script, 0);
    }
    if k == 2 {
      var u := t;
      t := Appends(config, u, w, ClosingEffect(attempt, result), script[1].0, later);
      ReachesStep(config, first, u, Append(w, later));
      RecordOneMore(|s.log|, s.epoch, script, 1);
    }
  }

  lemma RecordConcat(position: nat, epoch: nat, a: seq<(RunEvent, Time)>, b: seq<(RunEvent, Time)>)
    ensures RecordAll(position, epoch, a + b) == RecordAll(position, epoch, a) + RecordAll(position + |a|, epoch, b)
  {
  }

  /** However far an effect's script gets, the interleaving model gets there too. */
  lemma EffectMatches(
    config: Config, first: System, s: System, w: WorkerId, state: RunState, attempt: EffectAttempt,
    result: EffectOutcome, now: Time, later: Time, k: nat)
    returns (t: System)
    requires Reaches(config, first, s) && Owner(s, w, BeginEffect(state, attempt)) && Clock(s, w, now)
    requires k <= |EffectScript(state, attempt, result, now, later)|
    ensures Reaches(config, first, t)
    ensures var script, claim := EffectScript(state, attempt, result, now, later), |ClaimScript(state, attempt, now)|;
            && Adds(s, t, RecordAll(|s.log|, s.epoch, script[..k]),
                    if k < claim then [] else [EffectCall(s.epoch, attempt, |s.log| + claim - 1, result)])
            && (k == |script| ==> Owner(t, w, Ready))
  {
    hide Reaches, RecordAll, Do;
    var claim, rest := ClaimScript(state, attempt, now), Resolution(attempt, result, later);
    var script := EffectScript(state, attempt, result, now, later);
    assert script == claim + rest;
    hide EffectScript, ClaimScript, Resolution, BeginEffect;
    if k < |claim| {
      t := ClaimMatches(config, first, s, w, state, attempt, now, k);
      assert script[..k] == claim[..k];
    } else {
      var u := ClaimMatches(config, first, s, w, state, attempt, now, |claim|);
      t := ResolutionMatches(config, first, u, w, attempt, |s.log| + |claim| - 1, result, later, k - |claim|);
      assert claim[..|claim|] == claim && script[..k] == claim + rest[..k - |claim|];
      RecordConcat(|s.log|, s.epoch, claim, rest[..k - |claim|]);
      assert |u.log| == |s.log| + |claim|;
    }
  }

  lemma CompensationMatches(
    config: Config, first: System, s: System, w: WorkerId, compensation: Compensation, result: EffectOutcome,
    later: Time, recorded: bool)
    returns (t: System)
    requires Reaches(config, first, s) && Owner(s, w, Compensating(compensation))
    ensures Reaches(config, first, t)
    ensures Adds(s, t,
                 if recorded
                 then [RecordedEvent(|s.log|, s.epoch, later,
                                     PendingEvent(RecordingCompensation(compensation, result)).value)]
                 else [],
                 [CompensationCall(s.epoch, compensation)])
    ensures recorded ==> Owner(t, w, Ready)
  {
    hide Reaches;
    t := Do(config, s, CompensateIt(w, result));
    ReachesStep(config, first, s, CompensateIt(w, result));
    if recorded {
      var u := t;
      var phase := RecordingCompensation(compensation, result);
      t := Appends(config, u, w, phase, PendingEvent(phase).value, later);
      ReachesStep(config, first, u, Append(w, later));
    }
  }

  /** The lease's log and calls are those of a system of the interleaving model. */
  ghost predicate Mirrors(lease: Lease, s: System)
    reads lease
  {
    s.epoch == lease.epoch && s.log == lease.log && s.calls == lease.calls
  }

  /** The worker folded the whole log at this time and has not written since. */
  ghost predicate HasFolded(s: System, w: WorkerId, now: Time) {
    Owner(s, w, Folded) && s.workers[w].seen == s.log && Clock(s, w, now) && Fold(s.log).Ok?
  }

  lemma Folds(config: Config, s: System, w: WorkerId, now: Time) returns (t: System)
    requires Owner(s, w, Ready) && Fold(s.log).Ok?
    ensures t == Do(config, s, FoldTheLog(w, now)) && HasFolded(t, w, now) && Adds(s, t, [], [])
  {
    hide Fold;
    t := Do(config, s, FoldTheLog(w, now));
  }

  lemma TakesUp(config: Config, s: System, w: WorkerId, now: Time, identity: Identifier, phase: Phase) returns (t: System)
    requires HasFolded(s, w, now)
    requires var state := Fold(s.log).value;
             Begin(config, state, Decide(config.definition, state, now), now, identity) == Some(phase)
    ensures t == Do(config, s, DecideNow(w, identity)) && Owner(t, w, phase) && Clock(t, w, now) && Adds(s, t, [], [])
  {
    hide Fold, Begin, Decide;
    t := Do(config, s, DecideNow(w, identity));
  }

  lemma Resumes(config: Config, s: System, w: WorkerId, now: Time, signal: Signal) returns (t: System)
    requires HasFolded(s, w, now) && Resume(Fold(s.log).value.waitingOn, signal, now).Ok?
    ensures t == Do(config, s, AnswerSignal(w, signal)) && Owner(t, w, Ready)
    ensures Adds(s, t, [RecordedEvent(|s.log|, s.epoch, now, Resumed(Fold(s.log).value.waitingOn.value, signal.who))], [])
  {
    hide Fold;
    t := Do(config, s, AnswerSignal(w, signal));
  }

  /** The lease's durable state. */
  ghost function Standing(lease: Lease): Held
    reads lease
  {
    Held(lease.log, lease.patience, lease.calls, lease.consumed)
  }

  /** The phase a decision starts is the first step of what it leads to. */
  ghost predicate Begun(
    phase: Phase, play: Play, epoch: nat, position: nat, state: RunState, now: Time, answers: Answers)
  {
    match phase
    case Appending(event) => play == Play([(event, now)], None, 0)
    case OpeningNode(node) =>
      play == Play(NodeScript(node, answers.node, now, answers.later), Some(NodeCall(epoch, node, position)), 1)
    case OpeningEffect(attempt) =>
      BeginEffect(state, attempt) == phase && PlayEffect(epoch, position, state, Some(attempt), now, answers) == Some(play)
    case ClaimingEffect(attempt) =>
      BeginEffect(state, attempt) == phase && PlayEffect(epoch, position, state, Some(attempt), now, answers) == Some(play)
    case Compensating(compensation) =>
      play == Play([(PendingEvent(RecordingCompensation(compensation, answers.effect)).value, answers.later)],
                   Some(CompensationCall(epoch, compensation)), 0)
    case _ => false
  }

  lemma SameClaim(config: Config, state: RunState, node: Identifier, effect: Identifier, attempt: nat, retry: bool)
    ensures AttemptFor(config, state, node, effect, attempt, retry) == ClaimFor(config, state, node, effect, attempt, retry)
  {
    hide Claim;
  }

  lemma BeginsAnEffect(
    config: Config, identity: Identifier, epoch: nat, position: nat, state: RunState, decision: Decision, now: Time,
    answers: Answers)
    requires decision.PerformEffect? || decision.RetryClaimedEffect?
    ensures var begun := Begin(config, state, decision, now, identity);
            var play := PlayFor(config, identity, epoch, position, state, decision, now, answers);
            && (begun.Some? <==> play.Some?)
            && (begun.Some? ==> Begun(begun.value, play.value, epoch, position, state, now, answers))
  {
    SameClaim(config, state, decision.node, decision.effect, decision.attempt, decision.RetryClaimedEffect?);
    hide AttemptFor, ClaimFor, EffectScript, ClaimScript, NodeScript, PendingEvent;
  }

  lemma BeginsThePlay(
    config: Config, identity: Identifier, epoch: nat, position: nat, state: RunState, decision: Decision, now: Time,
    answers: Answers)
    ensures var begun := Begin(config, state, decision, now, identity);
            var play := PlayFor(config, identity, epoch, position, state, decision, now, answers);
            && (begun.Some? <==> play.Some?)
            && (begun.Some? ==> Begun(begun.value, play.value, epoch, position, state, now, answers))
  {
    if decision.PerformEffect? || decision.RetryClaimedEffect? {
      BeginsAnEffect(config, identity, epoch, position, state, decision, now, answers);
    } else {
      hide RecordIteration, AttemptFor, ClaimFor, NodeScript, PlayEffect, BeginEffect;
    }
  }

  /** Does what a decision asks for; `None` when the definition has nothing to do it with. */
  method CarryOut(
    lease: Lease, config: Config, identity: Identifier, state: RunState, decision: Decision, now: Time,
    answers: Answers, ghost w: WorkerId, ghost first: System, ghost s: System)
    returns (owns: Option<bool>, ghost t: System)
    requires Reaches(config, first, s) && Mirrors(lease, s) && HasFolded(s, w, now) && Fold(s.log) == Ok(state)
    requires decision == Decide(config.definition, state, now)
    modifies lease
    ensures Reaches(config, first, t) && Mirrors(lease, t)
    ensures owns == Some(true) ==> Owner(t, w, Ready)
    ensures var play := PlayFor(config, identity, lease.epoch, |old(lease.log)|, state, decision, now, answers);
            match play
            case None => owns.None? && Standing(lease) == old(Standing(lease))
            case Some(play) =>
              && owns == Some(old(lease.patience) >= |play.script|)
              && Standing(lease) == Played(old(Standing(lease)), lease.epoch, play)
  {
    hide Reaches, Begin, Decide, Fold, PlayFor, PlayEffect, BeginEffect, Played;
    BeginsThePlay(config, identity, lease.epoch, |lease.log|, state, decision, now, answers);
    var begun := Begin(config, state, decision, now, identity);
    if begun.None? {
      return None, s;
    }
    ghost var u := TakesUp(config, s, w, now, identity, begun.value);
    ReachesStep(config, first, s, DecideNow(w, identity));
    hide HasFolded;
    var kept;
    match begun.value {
      case Appending(event) =>
        kept, t := Record(lease, config, event, now, w, first, u);
      case OpeningNode(node) =>
        kept, t := Open(lease, config, node, now, answers, w, first, u);
      case OpeningEffect(attempt) =>
        kept, t := Perform(lease, config, state, attempt, now, answers, w, first, u);
      case ClaimingEffect(attempt) =>
        kept, t := Perform(lease, config, state, attempt, now, answers, w, first, u);
      case Compensating(compensation) =>
        kept, t := Undo(lease, config, compensation, answers, w, first, u);
    }
    return Some(kept), t;
  }

  method Record(
    lease: Lease, config: Config, event: RunEvent, now: Time, ghost w: WorkerId, ghost first: System, ghost s: System)
    returns (owns: bool, ghost t: System)
    requires Reaches(config, first, s) && Mirrors(lease, s) && Owner(s, w, Appending(event)) && Clock(s, w, now)
    modifies lease
    ensures Reaches(config, first, t) && Mirrors(lease, t)
    ensures owns ==> Owner(t, w, Ready)
    ensures owns <==> old(lease.patience) >= 1
    ensures Standing(lease) == Played(old(Standing(lease)), lease.epoch, Play([(event, now)], None, 0))
  {
    hide Reaches;
    owns := lease.Append(event, now);
    t := s;
    if owns {
      t := Appends(config, s, w, Appending(event), event, now);
      ReachesStep(config, first, s, Append(w, now));
    }
  }

  method Open(
    lease: Lease, config: Config, node: Identifier, now: Time, answers: Answers,
    ghost w: WorkerId, ghost first: System, ghost s: System)
    returns (owns: bool, ghost t: System)
    requires Reaches(config, first, s) && Mirrors(lease, s) && Owner(s, w, OpeningNode(node)) && Clock(s, w, now)
    modifies lease
    ensures Reaches(config, first, t) && Mirrors(lease, t)
    ensures owns ==> Owner(t, w, Ready)
    ensures owns <==> old(lease.patience) >= 2
    ensures var play :=
              Play(NodeScript(node, answers.node, now, answers.later), Some(NodeCall(lease.epoch, node, |old(lease.log)|)), 1);
            Standing(lease) == Played(old(Standing(lease)), lease.epoch, play)
  {
    hide Reaches;
    ghost var patience := lease.patience;
    assert |NodeScript(node, answers.node, now, answers.later)| == 2;
    hide NodeScript;
    owns := lease.RunNode(node, answers.node, now, answers.later);
    t := NodeMatches(config, first, s, w, node, answers.node, now, answers.later, if patience < 2 then patience else 2);
  }

  method Undo(
    lease: Lease, config: Config, compensation: Compensation, answers: Answers,
    ghost w: WorkerId, ghost first: System, ghost s: System)
    returns (owns: bool, ghost t: System)
    requires Reaches(config, first, s) && Mirrors(lease, s) && Owner(s, w, Compensating(compensation))
    modifies lease
    ensures Reaches(config, first, t) && Mirrors(lease, t)
    ensures owns ==> Owner(t, w, Ready)
    ensures owns <==> old(lease.patience) >= 1
    ensures var play :=
              Play([(PendingEvent(RecordingCompensation(compensation, answers.effect)).value, answers.later)],
                   Some(CompensationCall(lease.epoch, compensation)), 0);
            Standing(lease) == Played(old(Standing(lease)), lease.epoch, play)
  {
    hide Reaches;
    owns := lease.Compensate(compensation, answers.effect, answers.later);
    t := CompensationMatches(config, first, s, w, compensation, answers.effect, answers.later, owns);
  }

  method Perform(
    lease: Lease, config: Config, state: RunState, attempt: EffectAttempt, now: Time, answers: Answers,
    ghost w: WorkerId, ghost first: System, ghost s: System)
    returns (owns: bool, ghost t: System)
    requires Reaches(config, first, s) && Mirrors(lease, s)
    requires Owner(s, w, BeginEffect(state, attempt)) && Clock(s, w, now)
    modifies lease
    ensures Reaches(config, first, t) && Mirrors(lease, t)
    ensures owns ==> Owner(t, w, Ready)
    ensures var play := PlayEffect(lease.epoch, |old(lease.log)|, state, Some(attempt), now, answers).value;
            && (owns <==> old(lease.patience) >= |play.script|)
            && Standing(lease) == Played(old(Standing(lease)), lease.epoch, play)
  {
    ghost var patience, length := lease.patience, |EffectScript(state, attempt, answers.effect, now, answers.later)|;
    assert |ClaimScript(state, attempt, now)| <= length;
    hide Reaches, EffectScript, ClaimScript, BeginEffect;
    owns := lease.PerformEffect(state, attempt, answers.effect, now, answers.later);
    t := EffectMatches(config, first, s, w, state, attempt, answers.effect, now, answers.later,
                       if patience < length then patience else length);
  }

  /** The program's answer to its inbox is the one a turn gives. */
  method AnswerInbox(lease: Lease, state: RunState, turn: Turn) returns (resumed: bool)
    modifies lease
    ensures resumed <==> FirstAnswer(state.waitingOn, turn.inbox, turn.now) < |turn.inbox| && old(lease.patience) > 0
    ensures Standing(lease) ==
      SignalsAnswered(old(Standing(lease)), lease.epoch, state.waitingOn, turn.inbox, turn.now)
  {
    ghost var consumed := lease.consumed;
    ghost var k := FirstAnswer(state.waitingOn, turn.inbox, turn.now);
    ghost var all := Consumptions(turn.inbox, k, lease.patience, |lease.log|);
    resumed := lease.AnswerSignals(state.waitingOn, turn.inbox, turn.now);
    assert state.waitingOn.Some? ==> lease.consumed == consumed + all;
  }

  /** One turn of the lease; `progress` is set when the worker puts the run down. */
  method Advance(
    lease: Lease, config: Config, identity: Identifier, turn: Turn, ghost w: WorkerId, ghost first: System, ghost s: System)
    returns (progress: Option<Progress>, ghost t: System)
    requires Reaches(config, first, s) && Mirrors(lease, s) && Owner(s, w, Ready)
    modifies lease
    ensures Reaches(config, first, t) && Mirrors(lease, t)
    ensures progress.None? ==> Owner(t, w, Ready)
    ensures TakeTurn(config, identity, lease.epoch, old(Standing(lease)), turn) == Taken(Standing(lease), progress)
  {
    hide Reaches, Begin, Decide, Fold, Resume, PlayFor, Played, SignalsAnswered;
    var folded := FoldLog(lease.log);
    if folded.Err? {
      return Some(Stuck), s;
    }
    var state := folded.value;
    ghost var u := Folds(config, s, w, turn.now);
    ReachesStep(config, first, s, FoldTheLog(w, turn.now));
    ghost var k := FirstAnswer(state.waitingOn, turn.inbox, turn.now);
    InboxLeaves(Standing(lease), lease.epoch, state, turn);
    var resumed := AnswerInbox(lease, state, turn);
    if resumed {
      t := Resumes(config, u, w, turn.now, turn.inbox[k].signal);
      ReachesStep(config, first, u, AnswerSignal(w, turn.inbox[k].signal));
      return None, t;
    }
    var decision := Decide(config.definition, state, turn.now);
    if decision.Idle? {
      progress := Some(if state.status.IsTerminal() then Ended else if state.status.Waiting? then Suspension else StillRunning);
      return progress, u;
    }
    var owns;
    owns, t := CarryOut(lease, config, identity, state, decision, turn.now, turn.answers, w, first, u);
    if owns.None? {
      return Some(Stuck), t;
    }
    progress := if !owns.value || !turn.alive then Some(LeaseLost) else None;
  }

  /**
   Advances a leased run by at most the given turns. It leaves what the turns leave and reports what they
   report. `s` is the interleaving model's system when the lease was taken; the lease ends in a system that
   model reaches from it.
   */
  method AdvanceLeased(
    lease: Lease, config: Config, identity: Identifier, turns: seq<Turn>, ghost w: WorkerId, ghost s: System)
    returns (progress: Progress, ghost t: System)
    requires Mirrors(lease, s) && Owner(s, w, Ready)
    modifies lease
    ensures Reaches(config, s, t) && Mirrors(lease, t)
    ensures var taken := TakeTurns(config, identity, lease.epoch, old(Standing(lease)), turns);
            && Standing(lease) == taken.held
            && progress == if taken.progress.Some? then taken.progress.value else StillRunning
  {
    hide Reaches, TakeTurn;
    t := s;
    ReachesSelf(config, s);
    ghost var whole := TakeTurns(config, identity, lease.epoch, Standing(lease), turns);
    assert turns[0..] == turns;
    for i := 0 to |turns|
      invariant Reaches(config, s, t) && Mirrors(lease, t) && Owner(t, w, Ready)
      invariant whole == TakeTurns(config, identity, lease.epoch, Standing(lease), turns[i..])
    {
      assert turns[i..][0] == turns[i] && turns[i..][1..] == turns[i + 1..];
      var ended;
      ended, t := Advance(lease, config, identity, turns[i], w, s, t);
      if ended.Some? {
        return ended.value, t;
      }
    }
    return StillRunning, t;
  }

  /** What the inbox leaves of a lease: its log and requests, unless a signal resumed the run. */
  lemma InboxLeaves(held: Held, epoch: nat, state: RunState, turn: Turn)
    ensures var after := SignalsAnswered(held, epoch, state.waitingOn, turn.inbox, turn.now);
            var k := FirstAnswer(state.waitingOn, turn.inbox, turn.now);
            && after.calls == held.calls
            && if k < |turn.inbox| && held.patience > 0 then
                 && state.waitingOn.Some?
                 && after.log == held.log
                    + [RecordedEvent(|held.log|, epoch, turn.now, Resumed(state.waitingOn.value, turn.inbox[k].signal.who))]
               else after.log == held.log && after.patience == held.patience
  {
  }
}
