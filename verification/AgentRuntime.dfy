/**
 Executing one agent run through its graph's static order (crates/application/src/agent_runtime.rs).
 The node executor is a function of the call's number and its request, so it may answer two equal
 requests differently; the repository accepts some number of writes and then fails.
 */
module AgentRuntime {
  import opened Wrappers

  datatype StopReason = ValidatorPass | SafetyFailure | NoProgress | HumanEscalation

  datatype Status = Queued | Running | Succeeded | Failed | Cancelled | Stopped

  datatype Policy = Policy(
    acceptOnValidatorPass: bool, stopOnSafetyFailure: bool, stopOnNoProgress: bool, allowHumanEscalation: bool)

  datatype GraphNode = GraphNode(id: string, kind: string)

  datatype Agent = Agent(
    id: string, nodes: seq<GraphNode>, order: seq<string>,
    maxSteps: nat, maxTokens: nat, maxCost: nat, policy: Policy)

  datatype Record = Record(id: string, agentId: string, status: Status, version: nat, json: string)

  datatype Execution = Execution(runId: string, agentId: string, node: GraphNode, version: nat, json: string)

  datatype Answer =
    | Answered(json: string, tokens: nat, cost: nat, stop: Option<StopReason>)
    | Errored(message: string)

  type Executor = (nat, Execution) -> Answer

  datatype TraceEvent =
    | NodeStarted(node: GraphNode, version: nat)
    | NodeCompleted(node: GraphNode, version: nat, tokens: nat, cost: nat)
    | NodeFailed(node: GraphNode, message: string)
    | BudgetExhausted(budget: string, version: nat)
    | RunStopped(reason: StopReason, version: nat)
    | RunSucceeded(version: nat, steps: nat, tokens: nat, cost: nat)

  datatype Write =
    | Save(record: Record)
    | Trace(sequence: nat, event: TraceEvent)

  datatype Error = AgentMismatch | TerminalRun(status: Status) | RepositoryError

  datatype Counters = Counters(sequence: nat, steps: nat, tokens: nat, cost: nat)

  predicate IsTerminal(status: Status) {
    status.Succeeded? || status.Failed? || status.Cancelled? || status.Stopped?
  }

  predicate Names(policy: Policy, reason: StopReason) {
    match reason
    case ValidatorPass => policy.acceptOnValidatorPass
    case SafetyFailure => policy.stopOnSafetyFailure
    case NoProgress => policy.stopOnNoProgress
    case HumanEscalation => policy.allowHumanEscalation
  }

  function StatusFor(policy: Policy, reason: StopReason): Status {
    match reason
    case ValidatorPass => if policy.acceptOnValidatorPass then Succeeded else Running
    case SafetyFailure => if policy.stopOnSafetyFailure then Stopped else Running
    case NoProgress => if policy.stopOnNoProgress then Stopped else Running
    case HumanEscalation => if policy.allowHumanEscalation then Stopped else Running
  }

  function Validate(agent: Agent, run: Record): Option<Error> {
    if run.agentId != agent.id then Some(AgentMismatch)
    else if IsTerminal(run.status) then Some(TerminalRun(run.status))
    else None
  }

  function FindNode(nodes: seq<GraphNode>, id: string): (found: Option<GraphNode>)
    ensures found.Some? ==> found.value in nodes && found.value.id == id
    ensures found.None? ==> forall node :: node in nodes ==> node.id != id
  {
    if nodes == [] then None else if nodes[0].id == id then Some(nodes[0]) else FindNode(nodes[1..], id)
  }

  function RequestFor(run: Record, node: GraphNode): Execution {
    Execution(run.id, run.agentId, node, run.version, run.json)
  }

  function Count(counters: Counters, answer: Answer): Counters
    requires answer.Answered?
  {
    Counters(counters.sequence + 2, counters.steps + 1,
             SaturatingAdd(counters.tokens, answer.tokens, U64_MAX),
             SaturatingAdd(counters.cost, answer.cost, U64_MAX))
  }

  /** The budget a call has used up after a node, if any; tokens are checked first. */
  function Exhausted(agent: Agent, counters: Counters): Option<string> {
    if counters.tokens >= agent.maxTokens then Some("max_tokens")
    else if counters.cost >= agent.maxCost then Some("max_cost_micros")
    else None
  }

  datatype Ending =
    | Completion
    | StepLimit
    | BudgetLimit(budget: string)
    | NodeError
    | Asked(reason: StopReason)

  /** Everything one call writes, the record it returns, and why it ended. */
  datatype Transcript = Transcript(writes: seq<Write>, run: Record, ending: Ending)

  function Closing(counters: Counters, event: TraceEvent, run: Record, ending: Ending): Transcript {
    Transcript([Trace(counters.sequence, event), Save(run)], run, ending)
  }

  function After(first: seq<Write>, rest: Transcript): Transcript {
    rest.(writes := first + rest.writes)
  }

  /** What executing the remaining order writes and returns. */
  function Remaining(agent: Agent, executor: Executor, order: seq<string>, run: Record, counters: Counters): Transcript
    decreases |order|, 2
  {
    if order == [] then
      Closing(counters, RunSucceeded(run.version, counters.steps, counters.tokens, counters.cost),
              run.(status := Succeeded), Completion)
    else if counters.steps >= agent.maxSteps then
      Closing(counters, BudgetExhausted("max_steps", run.version), run.(status := Stopped), StepLimit)
    else
      match FindNode(agent.nodes, order[0])
      case None => Remaining(agent, executor, order[1..], run, counters)
      case Some(node) => Stepped(agent, executor, order, run, counters, node)
  }

  function Stepped(
    agent: Agent, executor: Executor, order: seq<string>, run: Record, counters: Counters, node: GraphNode): Transcript
    requires order != []
    decreases |order|, 1
  {
    var started := Trace(counters.sequence, NodeStarted(node, run.version));
    match executor(counters.steps, RequestFor(run, node))
    case Errored(message) =>
      After([started],
            Closing(counters.(sequence := counters.sequence + 1), NodeFailed(node, message),
                    run.(status := Failed), NodeError))
    case Answered(json, tokens, cost, stop) =>
      var next := run.(version := run.version + 1, json := json);
      var counted := Count(counters, Answered(json, tokens, cost, stop));
      var completed := Trace(counters.sequence + 1, NodeCompleted(node, next.version, tokens, cost));
      After([started, completed],
            if stop.Some? then
              Closing(counted, RunStopped(stop.value, next.version),
                      next.(status := StatusFor(agent.policy, stop.value)), Asked(stop.value))
            else Settled(agent, executor, order, next, counted))
  }

  /** What follows a node that neither failed nor asked to stop. */
  function Settled(agent: Agent, executor: Executor, order: seq<string>, run: Record, counters: Counters): Transcript
    requires order != []
    decreases |order|, 0
  {
    match Exhausted(agent, counters)
    case Some(budget) =>
      Closing(counters, BudgetExhausted(budget, run.version), run.(status := Stopped), BudgetLimit(budget))
    case None => After([Save(run)], Remaining(agent, executor, order[1..], run, counters))
  }

  const FRESH := Counters(0, 0, 0, 0)

  function Transcribe(agent: Agent, executor: Executor, run: Record): Transcript {
    var running := run.(status := Running);
    After([Save(running)], Remaining(agent, executor, agent.order, running, FRESH))
  }

  // ---- The program. ----

  class Repository {
    var writes: seq<Write>
    var patience: nat

    constructor (patience: nat)
      ensures writes == [] && this.patience == patience
    {
      writes := [];
      this.patience := patience;
    }

    /** Of one call's script, exactly the first `n` writes were accepted, out of `total` it may have. */
    ghost predicate Wrote(base: seq<Write>, script: seq<Write>, n: nat, total: nat)
      reads this
    {
      n <= |script| && writes == base + script[..n] && patience + n == total
    }

    method Put(ghost base: seq<Write>, ghost script: seq<Write>, ghost n: nat, ghost total: nat, write: Write)
      returns (ok: bool)
      requires Wrote(base, script, n, total) && n < |script| && script[n] == write
      modifies this
      ensures ok ==> Wrote(base, script, n + 1, total)
      ensures !ok ==> Wrote(base, script, n, total) && n == total
    {
      ok := patience > 0;
      if ok {
        writes := writes + [write];
        patience := patience - 1;
        assert script[..n + 1] == script[..n] + [write];
      }
    }

    /** Writes a closing trace event and the record it closes. */
    method Close(
      ghost base: seq<Write>, ghost script: seq<Write>, ghost n: nat, ghost total: nat,
      counters: Counters, event: TraceEvent, run: Record)
      returns (ok: bool)
      requires Wrote(base, script, n, total) && script[n..] == [Trace(counters.sequence, event), Save(run)]
      modifies this
      ensures ok ==> Wrote(base, script, |script|, total)
      ensures !ok ==> total < |script| && Wrote(base, script, total, total)
    {
      assert script[n] == script[n..][0] && script[n + 1] == script[n..][1];
      ok := Put(base, script, n, total, Trace(counters.sequence, event));
      if ok {
        ok := Put(base, script, n + 1, total, Save(run));
      }
    }
  }

  datatype Stepping = Lost | Ended(run: Record) | Going(run: Record, counters: Counters)

  /** Runs one node; `Ended` when it failed or asked to stop. */
  method ExecuteNode(
    repository: Repository, agent: Agent, executor: Executor, node: GraphNode, run: Record, counters: Counters,
    ghost order: seq<string>, ghost base: seq<Write>, ghost script: seq<Write>, ghost n: nat, ghost total: nat)
    returns (stepping: Stepping)
    requires order != [] && repository.Wrote(base, script, n, total)
    requires script[n..] == Stepped(agent, executor, order, run, counters, node).writes
    modifies repository
    ensures var whole := Stepped(agent, executor, order, run, counters, node);
            match stepping
            case Lost => total < |script| && repository.Wrote(base, script, total, total)
            case Ended(last) => last == whole.run && repository.Wrote(base, script, |script|, total)
            case Going(next, counted) =>
              && n + 2 <= |script| && repository.Wrote(base, script, n + 2, total)
              && script[n + 2..] == Settled(agent, executor, order, next, counted).writes
              && whole.run == Settled(agent, executor, order, next, counted).run
  {
    hide Remaining, Settled;
    assert forall i :: 0 <= i < |script| - n ==> script[n + i] == script[n..][i];
    var ok := repository.Put(base, script, n, total, Trace(counters.sequence, NodeStarted(node, run.version)));
    if !ok {
      return Lost;
    }
    assert script[n + 1..] == script[n..][1..];
    match executor(counters.steps, RequestFor(run, node)) {
      case Errored(message) =>
        var last := run.(status := Failed);
        ok := repository.Close(base, script, n + 1, total, counters.(sequence := counters.sequence + 1),
                               NodeFailed(node, message), last);
        return if ok then Ended(last) else Lost;
      case Answered(json, tokens, cost, stop) =>
        var next := run.(version := run.version + 1, json := json);
        ok := repository.Put(base, script, n + 1, total,
                             Trace(counters.sequence + 1, NodeCompleted(node, next.version, tokens, cost)));
        if !ok {
          return Lost;
        }
        assert script[n + 2..] == script[n..][2..];
        var counted := Count(counters, Answered(json, tokens, cost, stop));
        if stop.Some? {
          var last := next.(status := StatusFor(agent.policy, stop.value));
          ok := repository.Close(base, script, n + 2, total, counted, RunStopped(stop.value, next.version), last);
          return if ok then Ended(last) else Lost;
        }
        return Going(next, counted);
    }
  }

  /** Executes one run: every write of its transcript in order, up to the one the repository refuses. */
  method ExecuteRun(repository: Repository, agent: Agent, executor: Executor, given: Record)
    returns (result: Result<Record, Error>)
    modifies repository
    ensures result == Err(AgentMismatch) <==> given.agentId != agent.id
    ensures given.agentId == agent.id ==>
      (result == Err(TerminalRun(given.status)) <==>
         given.status == Succeeded || given.status == Failed || given.status == Cancelled || given.status == Stopped)
    ensures result.Err? && !result.error.RepositoryError? ==> repository.writes == old(repository.writes)
    ensures given.agentId == agent.id && (given.status == Queued || given.status == Running) ==>
      var whole := Transcribe(agent, executor, given);
      if old(repository.patience) < |whole.writes| then
        && result == Err(RepositoryError)
        && repository.writes == old(repository.writes) + whole.writes[..old(repository.patience)]
      else
        result == Ok(whole.run) && repository.writes == old(repository.writes) + whole.writes
  {
    var invalid := Validate(agent, given);
    if invalid.Some? {
      return Err(invalid.value);
    }
    ghost var base, total := repository.writes, repository.patience;
    ghost var whole := Transcribe(agent, executor, given);
    ghost var script := whole.writes;
    var run, counters := given.(status := Running), FRESH;
    var ok := repository.Put(base, script, 0, total, Save(run));
    if !ok {
      return Err(RepositoryError);
    }
    hide Stepped, Transcribe;
    ghost var n := 1;
    assert script[1..] == Remaining(agent, executor, agent.order, run, counters).writes;
    var i := 0;
    assert agent.order[0..] == agent.order;
    while i < |agent.order|
      invariant 0 <= i <= |agent.order| && n <= |script|
      invariant repository.Wrote(base, script, n, total)
      invariant script[n..] == Remaining(agent, executor, agent.order[i..], run, counters).writes
      invariant whole.run == Remaining(agent, executor, agent.order[i..], run, counters).run
    {
      ghost var order := agent.order[i..];
      assert order[1..] == agent.order[i + 1..] && order[0] == agent.order[i];
      if counters.steps >= agent.maxSteps {
        run := run.(status := Stopped);
        ok := repository.Close(base, script, n, total, counters, BudgetExhausted("max_steps", run.version), run);
        assert script[..|script|] == script;
        return if ok then Ok(run) else Err(RepositoryError);
      }
      var node := FindNode(agent.nodes, agent.order[i]);
      i := i + 1;
      if node.Some? {
        var stepping := ExecuteNode(repository, agent, executor, node.value, run, counters, order, base, script, n, total);
        assert script[..|script|] == script;
        match stepping {
          case Lost => return Err(RepositoryError);
          case Ended(last) => return Ok(last);
          case Going(next, counted) => run, counters := next, counted;
        }
        n := n + 2;
        var budget := Exhausted(agent, counters);
        if budget.Some? {
          run := run.(status := Stopped);
          ok := repository.Close(base, script, n, total, counters, BudgetExhausted(budget.value, run.version), run);
          return if ok then Ok(run) else Err(RepositoryError);
        }
        assert script[n] == script[n..][0];
        ok := repository.Put(base, script, n, total, Save(run));
        if !ok {
          return Err(RepositoryError);
        }
        n := n + 1;
        assert script[n..] == script[n - 1..][1..];
      }
    }
    assert agent.order[i..] == [];
    assert script[..|script|] == script;
    run := run.(status := Succeeded);
    ok := repository.Close(base, script, n, total, counters,
                           RunSucceeded(run.version, counters.steps, counters.tokens, counters.cost), run);
    return if ok then Ok(run) else Err(RepositoryError);
  }
}
