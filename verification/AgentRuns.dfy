/**
 What executing an agent run promises: it follows the executor over the static order up to the
 first obstacle, its saturating counters decide as exact sums would, and every prefix of its writes
 is a state a crash may leave behind.
 */
module AgentRuns {
  import opened Wrappers
  import opened AgentRuntime

  // ---- The reference: an executor followed with exact sums and no bookkeeping. ----

  /** The nodes an order visits: entries the graph does not hold are passed over. */
  function Present(agent: Agent, order: seq<string>): (nodes: seq<GraphNode>)
    ensures |nodes| <= |order|
  {
    if order == [] then []
    else
      var before := Present(agent, order[..|order| - 1]);
      match FindNode(agent.nodes, order[|order| - 1])
      case None => before
      case Some(node) => before + [node]
  }

  /** How many nodes were visited before an entry of the order. */
  function Visited(agent: Agent, p: nat): nat
    requires p <= |agent.order|
  {
    |Present(agent, agent.order[..p])|
  }

  function NodeAt(agent: Agent, p: nat): Option<GraphNode>
    requires p < |agent.order|
  {
    FindNode(agent.nodes, agent.order[p])
  }

  /** The record and the exact totals once every entry before `p` was followed. */
  datatype Point = Point(run: Record, steps: nat, tokens: nat, cost: nat)

  function PointAt(agent: Agent, executor: Executor, given: Record, p: nat): Point
    requires p <= |agent.order|
    decreases p, 0
  {
    if p == 0 then Point(given.(status := Running), 0, 0, 0)
    else
      var before := PointAt(agent, executor, given, p - 1);
      match AnswerAt(agent, executor, given, p - 1)
      case Some(Answered(json, tokens, cost, _)) =>
        Point(before.run.(version := before.run.version + 1, json := json), before.steps + 1,
              before.tokens + tokens, before.cost + cost)
      case _ => before
  }

  /** What the executor says at an entry; `None` where the graph holds no such node. */
  function AnswerAt(agent: Agent, executor: Executor, given: Record, p: nat): Option<Answer>
    requires p < |agent.order|
    decreases p, 1
  {
    match NodeAt(agent, p)
    case None => None
    case Some(node) =>
      var before := PointAt(agent, executor, given, p);
      Some(executor(before.steps, Execution(before.run.id, before.run.agentId, node, before.run.version, before.run.json)))
  }

  /** What stops the run at an entry, judged on exact totals. */
  function Obstacle(agent: Agent, executor: Executor, given: Record, p: nat): Option<Ending>
    requires p < |agent.order|
  {
    if PointAt(agent, executor, given, p).steps >= agent.maxSteps then Some(StepLimit)
    else
      match AnswerAt(agent, executor, given, p)
      case None => None
      case Some(Errored(_)) => Some(NodeError)
      case Some(Answered(_, _, _, Some(reason))) => Some(Asked(reason))
      case Some(Answered(_, _, _, None)) =>
        var after := PointAt(agent, executor, given, p + 1);
        if after.tokens >= agent.maxTokens then Some(BudgetLimit("max_tokens"))
        else if after.cost >= agent.maxCost then Some(BudgetLimit("max_cost_micros"))
        else None
  }

  /** The first obstacle from an entry on, or the end of the order. */
  function FirstObstacle(agent: Agent, executor: Executor, given: Record, p: nat): (q: nat)
    requires p <= |agent.order|
    ensures p <= q <= |agent.order|
    ensures forall i :: p <= i < q ==> Obstacle(agent, executor, given, i).None?
    ensures q < |agent.order| ==> Obstacle(agent, executor, given, q).Some?
    decreases |agent.order| - p
  {
    if p == |agent.order| || Obstacle(agent, executor, given, p).Some? then p
    else FirstObstacle(agent, executor, given, p + 1)
  }

  /** The record a run ends with at its first obstacle. */
  function EndsWith(agent: Agent, executor: Executor, given: Record, q: nat): Record
    requires q <= |agent.order|
  {
    var before := PointAt(agent, executor, given, q).run;
    if q == |agent.order| then before.(status := Succeeded)
    else
      match Obstacle(agent, executor, given, q)
      case Some(StepLimit) => before.(status := Stopped)
      case Some(NodeError) => before.(status := Failed)
      case Some(Asked(reason)) =>
        PointAt(agent, executor, given, q + 1).run.(
          status := if !Names(agent.policy, reason) then Running
                    else if reason.ValidatorPass? then Succeeded else Stopped)
      case _ => PointAt(agent, executor, given, q + 1).run.(status := Stopped)
  }

  // ---- The program follows the reference. ----

  predicate Machine(agent: Agent) {
    agent.maxSteps <= U32_MAX && agent.maxTokens <= U64_MAX && agent.maxCost <= U64_MAX
  }

  function Capped(total: nat): nat {
    if total > U64_MAX then U64_MAX else total
  }

  function CountersAt(point: Point): Counters {
    Counters(2 * point.steps, point.steps, Capped(point.tokens), Capped(point.cost))
  }

  /** A saturating counter decides a limit exactly as the unbounded total does. */
  lemma CappedDecidesExactly(total: nat, more: nat, limit: nat)
    requires limit <= U64_MAX
    ensures SaturatingAdd(Capped(total), more, U64_MAX) == Capped(total + more)
    ensures Capped(total) >= limit <==> total >= limit
  {
  }

  /** What is left of a call once every entry before `p` was followed. */
  function RestAt(agent: Agent, executor: Executor, given: Record, p: nat): Transcript
    requires p <= |agent.order|
  {
    var point := PointAt(agent, executor, given, p);
    Remaining(agent, executor, agent.order[p..], point.run, CountersAt(point))
  }

  lemma CountsOneAnswer(agent: Agent, executor: Executor, given: Record, p: nat)
    requires Machine(agent) && p < |agent.order|
    requires var answer := AnswerAt(agent, executor, given, p); answer.Some? && answer.value.Answered?
    ensures var after := PointAt(agent, executor, given, p + 1);
            var counted := Count(CountersAt(PointAt(agent, executor, given, p)), AnswerAt(agent, executor, given, p).value);
            && counted == CountersAt(after)
            && Exhausted(agent, counted) ==
                 if after.tokens >= agent.maxTokens then Some("max_tokens")
                 else if after.cost >= agent.maxCost then Some("max_cost_micros")
                 else None
  {
    var point, answer := PointAt(agent, executor, given, p), AnswerAt(agent, executor, given, p).value;
    CappedDecidesExactly(point.tokens, answer.tokens, agent.maxTokens);
    CappedDecidesExactly(point.cost, answer.cost, agent.maxCost);
    CappedDecidesExactly(point.tokens + answer.tokens, 0, agent.maxTokens);
    CappedDecidesExactly(point.cost + answer.cost, 0, agent.maxCost);
  }

  /** One entry: the obstacle ends the call there, or the call goes on from the next point. */
  lemma OneEntry(agent: Agent, executor: Executor, given: Record, p: nat)
    requires Machine(agent) && p < |agent.order|
    ensures var rest, obstacle := RestAt(agent, executor, given, p), Obstacle(agent, executor, given, p);
            var next := RestAt(agent, executor, given, p + 1);
            && rest.ending == (if obstacle.Some? then obstacle.value else next.ending)
            && rest.run == (if obstacle.Some? then EndsWith(agent, executor, given, p) else next.run)
  {
    var order := agent.order[p..];
    assert order[1..] == agent.order[p + 1..] && order[0] == agent.order[p];
    var point, next := PointAt(agent, executor, given, p), PointAt(agent, executor, given, p + 1);
    assert RestAt(agent, executor, given, p + 1) == Remaining(agent, executor, order[1..], next.run, CountersAt(next));
    if point.steps < agent.maxSteps {
      match AnswerAt(agent, executor, given, p)
      case None =>
        assert NodeAt(agent, p).None? && next == point;
      case Some(answer) =>
        var node := NodeAt(agent, p).value;
        assert RestAt(agent, executor, given, p) ==
          Stepped(agent, executor, order, point.run, CountersAt(point), node);
        assert executor(CountersAt(point).steps, RequestFor(point.run, node)) == answer;
        if answer.Answered? {
          CountsOneAnswer(agent, executor, given, p);
          assert next.run == point.run.(version := point.run.version + 1, json := answer.json);
          if answer.stop.None? {
            assert answer == Answered(answer.json, answer.tokens, answer.cost, None);
            var settled := Settled(agent, executor, order, next.run, CountersAt(next));
            assert RestAt(agent, executor, given, p).ending == settled.ending;
            assert RestAt(agent, executor, given, p).run == settled.run;
          }
        }
    }
  }

  lemma {:induction false} RemainingFollows(agent: Agent, executor: Executor, given: Record, p: nat)
    requires Machine(agent) && p <= |agent.order|
    ensures var rest, q := RestAt(agent, executor, given, p), FirstObstacle(agent, executor, given, p);
            && rest.ending == (if q == |agent.order| then Completion else Obstacle(agent, executor, given, q).value)
            && rest.run == EndsWith(agent, executor, given, q)
    decreases |agent.order| - p
  {
    if p < |agent.order| {
      hide RestAt, Obstacle, EndsWith;
      OneEntry(agent, executor, given, p);
      RemainingFollows(agent, executor, given, p + 1);
    } else {
      assert agent.order[p..] == [];
    }
  }

  /**
   One call follows the executor over the order and stops at the first entry where the step limit is
   met, the node fails or asks to stop, or the exact totals reach a budget; with no such entry it
   completes.
   */
  lemma StopsAtTheFirstObstacle(agent: Agent, executor: Executor, given: Record)
    requires Machine(agent)
    ensures var whole := Transcribe(agent, executor, given);
            var q := FirstObstacle(agent, executor, given, 0);
            && whole.ending == (if q == |agent.order| then Completion else Obstacle(agent, executor, given, q).value)
            && whole.run == EndsWith(agent, executor, given, q)
  {
    RemainingFollows(agent, executor, given, 0);
    assert agent.order[0..] == agent.order;
  }

  // ---- The writes, from the same reference. ----

  /** What following an entry writes: the node's start and completion, and the record after it. */
  function EntryWrites(agent: Agent, executor: Executor, given: Record, p: nat): seq<Write>
    requires p < |agent.order|
  {
    match AnswerAt(agent, executor, given, p)
    case Some(Answered(_, _, _, _)) =>
      NodeWrites(agent, executor, given, p) + [Save(PointAt(agent, executor, given, p + 1).run)]
    case _ => []
  }

  function NodeWrites(agent: Agent, executor: Executor, given: Record, p: nat): seq<Write>
    requires p < |agent.order|
  {
    var before := PointAt(agent, executor, given, p);
    match (NodeAt(agent, p), AnswerAt(agent, executor, given, p))
    case (Some(node), Some(Answered(_, tokens, cost, _))) =>
      [Trace(2 * before.steps, NodeStarted(node, before.run.version)),
       Trace(2 * before.steps + 1, NodeCompleted(node, before.run.version + 1, tokens, cost))]
    case (Some(node), Some(Errored(message))) =>
      [Trace(2 * before.steps, NodeStarted(node, before.run.version)),
       Trace(2 * before.steps + 1, NodeFailed(node, message))]
    case _ => []
  }

  /** What every entry before `p` wrote. */
  function FollowedWrites(agent: Agent, executor: Executor, given: Record, p: nat, q: nat): seq<Write>
    requires p <= q <= |agent.order|
    decreases q - p
  {
    if p == q then []
    else EntryWrites(agent, executor, given, p) + FollowedWrites(agent, executor, given, p + 1, q)
  }

  /** What the obstacle, or the end of the order, writes. */
  function EndingWrites(agent: Agent, executor: Executor, given: Record, q: nat): seq<Write>
    requires q <= |agent.order|
  {
    var before, last := PointAt(agent, executor, given, q), EndsWith(agent, executor, given, q);
    var number, version := 2 * before.steps, before.run.version;
    if q == |agent.order| then
      [Trace(number, RunSucceeded(version, before.steps, Capped(before.tokens), Capped(before.cost))), Save(last)]
    else
      match Obstacle(agent, executor, given, q)
      case Some(StepLimit) => [Trace(number, BudgetExhausted("max_steps", version)), Save(last)]
      case Some(NodeError) => NodeWrites(agent, executor, given, q) + [Save(last)]
      case Some(Asked(reason)) =>
        NodeWrites(agent, executor, given, q) + [Trace(number + 2, RunStopped(reason, version + 1)), Save(last)]
      case Some(BudgetLimit(budget)) =>
        NodeWrites(agent, executor, given, q) + [Trace(number + 2, BudgetExhausted(budget, version + 1)), Save(last)]
      case _ => []
  }

  /** At an entry whose node is asked, what is left of the call is that node's step. */
  lemma AskedEntry(agent: Agent, executor: Executor, given: Record, p: nat)
    requires p < |agent.order| && NodeAt(agent, p).Some? && PointAt(agent, executor, given, p).steps < agent.maxSteps
    ensures var point, node := PointAt(agent, executor, given, p), NodeAt(agent, p).value;
            && agent.order[p..] != []
            && RestAt(agent, executor, given, p) ==
                 Stepped(agent, executor, agent.order[p..], point.run, CountersAt(point), node)
            && AnswerAt(agent, executor, given, p) == Some(executor(point.steps, RequestFor(point.run, node)))
  {
    assert agent.order[p..][0] == agent.order[p];
  }

  lemma AnsweredWrites(agent: Agent, executor: Executor, given: Record, p: nat)
    requires Machine(agent) && p < |agent.order| && PointAt(agent, executor, given, p).steps < agent.maxSteps
    requires var answer := AnswerAt(agent, executor, given, p); answer.Some? && answer.value.Answered?
    ensures var answer, next := AnswerAt(agent, executor, given, p).value, PointAt(agent, executor, given, p + 1);
            RestAt(agent, executor, given, p).writes ==
              NodeWrites(agent, executor, given, p) +
                if answer.stop.Some? then
                  [Trace(2 * next.steps, RunStopped(answer.stop.value, next.run.version)),
                   Save(next.run.(status := StatusFor(agent.policy, answer.stop.value)))]
                else Settled(agent, executor, agent.order[p..], next.run, CountersAt(next)).writes
  {
    AskedEntry(agent, executor, given, p);
    CountsOneAnswer(agent, executor, given, p);
    hide Settled, Exhausted, Count, RestAt;
    var answer := AnswerAt(agent, executor, given, p).value;
    assert answer == Answered(answer.json, answer.tokens, answer.cost, answer.stop);
  }

  lemma SettledWrites(agent: Agent, executor: Executor, given: Record, p: nat)
    requires Machine(agent) && p < |agent.order|
    requires var answer := AnswerAt(agent, executor, given, p); answer.Some? && answer.value.Answered?
    ensures var next := PointAt(agent, executor, given, p + 1);
            Settled(agent, executor, agent.order[p..], next.run, CountersAt(next)).writes ==
              if next.tokens >= agent.maxTokens then
                [Trace(2 * next.steps, BudgetExhausted("max_tokens", next.run.version)), Save(next.run.(status := Stopped))]
              else if next.cost >= agent.maxCost then
                [Trace(2 * next.steps, BudgetExhausted("max_cost_micros", next.run.version)),
                 Save(next.run.(status := Stopped))]
              else [Save(next.run)] + RestAt(agent, executor, given, p + 1).writes
  {
    CountsOneAnswer(agent, executor, given, p);
    hide PointAt, AnswerAt, Count, Exhausted;
    assert agent.order[p..][1..] == agent.order[p + 1..];
  }

  lemma OneEntryWrites(agent: Agent, executor: Executor, given: Record, p: nat)
    requires Machine(agent) && p < |agent.order|
    ensures RestAt(agent, executor, given, p).writes ==
      if Obstacle(agent, executor, given, p).Some? then EndingWrites(agent, executor, given, p)
      else EntryWrites(agent, executor, given, p) + RestAt(agent, executor, given, p + 1).writes
  {
    var point := PointAt(agent, executor, given, p);
    assert agent.order[p..][1..] == agent.order[p + 1..] && agent.order[p..][0] == agent.order[p];
    if point.steps < agent.maxSteps && NodeAt(agent, p).Some? {
      if AnswerAt(agent, executor, given, p).value.Answered? {
        AnsweredEntryWrites(agent, executor, given, p);
      } else {
        AskedEntry(agent, executor, given, p);
      }
    }
  }

  lemma AnsweredEntryWrites(agent: Agent, executor: Executor, given: Record, p: nat)
    requires Machine(agent) && p < |agent.order| && PointAt(agent, executor, given, p).steps < agent.maxSteps
    requires var answer := AnswerAt(agent, executor, given, p); answer.Some? && answer.value.Answered?
    ensures RestAt(agent, executor, given, p).writes ==
      if Obstacle(agent, executor, given, p).Some? then EndingWrites(agent, executor, given, p)
      else EntryWrites(agent, executor, given, p) + RestAt(agent, executor, given, p + 1).writes
  {
    AnsweredWrites(agent, executor, given, p);
    SettledWrites(agent, executor, given, p);
    var point, next := PointAt(agent, executor, given, p), PointAt(agent, executor, given, p + 1);
    assert next.steps == point.steps + 1 && next.run.version == point.run.version + 1;
    hide PointAt, AnswerAt, Settled, NodeWrites, RestAt, CountersAt, Machine;
    var rest, node := RestAt(agent, executor, given, p + 1), NodeWrites(agent, executor, given, p);
    assert node + ([Save(next.run)] + rest.writes) == node + [Save(next.run)] + rest.writes;
  }

  lemma {:induction false} RemainingWrites(agent: Agent, executor: Executor, given: Record, p: nat)
    requires Machine(agent) && p <= |agent.order|
    ensures var q := FirstObstacle(agent, executor, given, p);
            RestAt(agent, executor, given, p).writes ==
              FollowedWrites(agent, executor, given, p, q) + EndingWrites(agent, executor, given, q)
    decreases |agent.order| - p
  {
    hide RestAt, Obstacle, EndingWrites, EntryWrites;
    if p < |agent.order| {
      OneEntryWrites(agent, executor, given, p);
      RemainingWrites(agent, executor, given, p + 1);
    } else {
      LastWrites(agent, executor, given);
    }
  }

  lemma LastWrites(agent: Agent, executor: Executor, given: Record)
    ensures RestAt(agent, executor, given, |agent.order|).writes == EndingWrites(agent, executor, given, |agent.order|)
  {
    assert agent.order[|agent.order|..] == [];
  }

  /** Everything a call writes, event by event and save by save, up to and including its first obstacle. */
  lemma WritesExactly(agent: Agent, executor: Executor, given: Record)
    requires Machine(agent)
    ensures var q := FirstObstacle(agent, executor, given, 0);
            Transcribe(agent, executor, given).writes ==
              [Save(given.(status := Running))]
              + (FollowedWrites(agent, executor, given, 0, q) + EndingWrites(agent, executor, given, q))
  {
    RemainingWrites(agent, executor, given, 0);
    assert agent.order[0..] == agent.order;
  }

  /** The node at an entry, if there is one, answered without asking to stop. */
  predicate Clean(agent: Agent, executor: Executor, given: Record, p: nat)
    requires p < |agent.order|
  {
    match AnswerAt(agent, executor, given, p)
    case None => true
    case Some(answer) => answer.Answered? && answer.stop.None?
  }

  lemma {:induction false} CleanVisits(agent: Agent, executor: Executor, given: Record, p: nat)
    requires p <= |agent.order|
    requires forall i :: 0 <= i < p ==> Clean(agent, executor, given, i)
    ensures PointAt(agent, executor, given, p).steps == Visited(agent, p)
    ensures PointAt(agent, executor, given, p).run.version == given.version + Visited(agent, p)
  {
    if p > 0 {
      CleanVisits(agent, executor, given, p - 1);
      assert agent.order[..p][..p - 1] == agent.order[..p - 1] && agent.order[..p][p - 1] == agent.order[p - 1];
      assert Clean(agent, executor, given, p - 1);
    }
  }

  lemma {:induction false} TotalsGrow(agent: Agent, executor: Executor, given: Record, p: nat, q: nat)
    requires p <= q <= |agent.order|
    ensures PointAt(agent, executor, given, p).tokens <= PointAt(agent, executor, given, q).tokens
    ensures PointAt(agent, executor, given, p).cost <= PointAt(agent, executor, given, q).cost
    decreases q
  {
    if p < q {
      TotalsGrow(agent, executor, given, p, q - 1);
    }
  }

  /** Nothing stands in the way before an entry: every visit is clean and the totals stay below. */
  lemma {:induction false} BelowLimits(agent: Agent, executor: Executor, given: Record, p: nat)
    requires p <= |agent.order| && agent.maxTokens > 0 && agent.maxCost > 0
    requires forall i :: 0 <= i < p ==> Obstacle(agent, executor, given, i).None?
    ensures forall i :: 0 <= i < p ==> Clean(agent, executor, given, i)
    ensures PointAt(agent, executor, given, p).tokens < agent.maxTokens
    ensures PointAt(agent, executor, given, p).cost < agent.maxCost
  {
    if p > 0 {
      BelowLimits(agent, executor, given, p - 1);
      assert Obstacle(agent, executor, given, p - 1).None?;
    }
  }

  /** Whatever ends a call, the exact totals before its last entry were strictly below both limits. */
  lemma TotalsBeforeTheLastEntry(agent: Agent, executor: Executor, given: Record)
    requires agent.maxTokens > 0 && agent.maxCost > 0
    ensures var before := PointAt(agent, executor, given, FirstObstacle(agent, executor, given, 0));
            before.tokens < agent.maxTokens && before.cost < agent.maxCost
  {
    BelowLimits(agent, executor, given, FirstObstacle(agent, executor, given, 0));
  }

  /**
   A call succeeds by completion exactly when every node present ran without failure or stop, the
   step limit was not met while an entry remained, and the exact totals stayed below their limits.
   */
  lemma CompletesExactlyWhen(agent: Agent, executor: Executor, given: Record)
    requires Machine(agent) && agent.maxTokens > 0 && agent.maxCost > 0
    ensures var total := PointAt(agent, executor, given, |agent.order|);
            Transcribe(agent, executor, given).ending.Completion? <==>
              && CleanThroughout(agent, executor, given)
              && total.tokens < agent.maxTokens && total.cost < agent.maxCost
    ensures Transcribe(agent, executor, given).ending.Completion? ==>
      Transcribe(agent, executor, given).run.version == given.version + |Present(agent, agent.order)|
  {
    StopsAtTheFirstObstacle(agent, executor, given);
    hide Transcribe, PointAt, AnswerAt, Clean, Visited, Obstacle, EndsWith;
    var n := |agent.order|;
    if FirstObstacle(agent, executor, given, 0) == n {
      ClearWayIsClean(agent, executor, given);
    } else if CleanThroughout(agent, executor, given) {
      ObstacleAfterAll(agent, executor, given);
    }
  }

  /** Every node present answered without stopping, and no entry met the step limit. */
  ghost predicate CleanThroughout(agent: Agent, executor: Executor, given: Record) {
    forall p :: 0 <= p < |agent.order| ==>
      Clean(agent, executor, given, p) && Visited(agent, p) < agent.maxSteps
  }

  lemma ClearWayIsClean(agent: Agent, executor: Executor, given: Record)
    requires agent.maxTokens > 0 && agent.maxCost > 0
    requires FirstObstacle(agent, executor, given, 0) == |agent.order|
    ensures CleanThroughout(agent, executor, given)
    ensures var total := PointAt(agent, executor, given, |agent.order|);
            && total.tokens < agent.maxTokens && total.cost < agent.maxCost
            && EndsWith(agent, executor, given, |agent.order|).version == given.version + |Present(agent, agent.order)|
  {
    var n := |agent.order|;
    assert agent.order[..n] == agent.order;
    BelowLimits(agent, executor, given, n);
    hide PointAt, AnswerAt, Clean;
    forall p | 0 <= p < n
      ensures Visited(agent, p) < agent.maxSteps
    {
      CleanVisits(agent, executor, given, p);
      assert Obstacle(agent, executor, given, p).None?;
    }
    CleanVisits(agent, executor, given, n);
  }

  /** With clean visits throughout, only an exact total can be in the way, and totals never shrink. */
  lemma ObstacleAfterAll(agent: Agent, executor: Executor, given: Record)
    requires CleanThroughout(agent, executor, given) && FirstObstacle(agent, executor, given, 0) < |agent.order|
    ensures var total := PointAt(agent, executor, given, |agent.order|);
            total.tokens >= agent.maxTokens || total.cost >= agent.maxCost
  {
    var q := FirstObstacle(agent, executor, given, 0);
    CleanVisits(agent, executor, given, q);
    assert Clean(agent, executor, given, q) && Visited(agent, q) < agent.maxSteps;
    TotalsGrow(agent, executor, given, q + 1, |agent.order|);
  }

  // ---- What the writes count. ----

  function Starts(writes: seq<Write>): nat {
    if writes == [] then 0
    else (if writes[0].Trace? && writes[0].event.NodeStarted? then 1 else 0) + Starts(writes[1..])
  }

  function Completions(writes: seq<Write>): nat {
    if writes == [] then 0
    else (if writes[0].Trace? && writes[0].event.NodeCompleted? then 1 else 0) + Completions(writes[1..])
  }

  lemma {:induction false} CountsAdd(first: seq<Write>, second: seq<Write>)
    ensures Starts(first + second) == Starts(first) + Starts(second)
    ensures Completions(first + second) == Completions(first) + Completions(second)
  {
    if first == [] {
      assert first + second == second;
    } else {
      assert (first + second)[1..] == first[1..] + second;
      CountsAdd(first[1..], second);
    }
  }

  lemma ClosingCounts(counters: Counters, event: TraceEvent, run: Record, ending: Ending)
    requires !event.NodeStarted? && !event.NodeCompleted?
    ensures var writes := Closing(counters, event, run, ending).writes; Starts(writes) == 0 && Completions(writes) == 0
  {
    assert [Trace(counters.sequence, event), Save(run)][1..] == [Save(run)];
    assert [Save(run)][1..] == [];
    assert Starts([Save(run)]) == 0 && Completions([Save(run)]) == 0;
  }

  lemma {:induction false} RemainingCounts(
    agent: Agent, executor: Executor, order: seq<string>, run: Record, counters: Counters)
    requires counters.steps <= agent.maxSteps
    ensures var rest := Remaining(agent, executor, order, run, counters);
            && counters.steps + Starts(rest.writes) <= agent.maxSteps
            && rest.run.version == run.version + Completions(rest.writes)
    decreases |order|, 2
  {
    if order == [] {
      ClosingCounts(counters, RunSucceeded(run.version, counters.steps, counters.tokens, counters.cost),
                    run.(status := Succeeded), Completion);
    } else if counters.steps >= agent.maxSteps {
      ClosingCounts(counters, BudgetExhausted("max_steps", run.version), run.(status := Stopped), StepLimit);
    } else {
      match FindNode(agent.nodes, order[0])
      case None => RemainingCounts(agent, executor, order[1..], run, counters);
      case Some(node) => SteppedCounts(agent, executor, order, run, counters, node);
    }
  }

  lemma SteppedCounts(
    agent: Agent, executor: Executor, order: seq<string>, run: Record, counters: Counters, node: GraphNode)
    requires order != [] && counters.steps < agent.maxSteps
    ensures var rest := Stepped(agent, executor, order, run, counters, node);
            && counters.steps + Starts(rest.writes) <= agent.maxSteps
            && rest.run.version == run.version + Completions(rest.writes)
    decreases |order|, 1
  {
    var whole := Stepped(agent, executor, order, run, counters, node);
    var started := Trace(counters.sequence, NodeStarted(node, run.version));
    assert Starts([started]) == 1 && Completions([started]) == 0 by { assert [started][1..] == []; }
    match executor(counters.steps, RequestFor(run, node))
    case Errored(message) =>
      var closing := Closing(counters.(sequence := counters.sequence + 1), NodeFailed(node, message),
                             run.(status := Failed), NodeError);
      ClosingCounts(counters.(sequence := counters.sequence + 1), NodeFailed(node, message),
                    run.(status := Failed), NodeError);
      CountsAdd([started], closing.writes);
    case Answered(json, tokens, cost, stop) =>
      var next := run.(version := run.version + 1, json := json);
      var completed := Trace(counters.sequence + 1, NodeCompleted(node, next.version, tokens, cost));
      var counted := Count(counters, Answered(json, tokens, cost, stop));
      assert Starts([started, completed]) == 1 && Completions([started, completed]) == 1 by {
        assert [started, completed][1..] == [completed] && [completed][1..] == [];
      }
      if stop.Some? {
        ClosingCounts(counted, RunStopped(stop.value, next.version),
                      next.(status := StatusFor(agent.policy, stop.value)), Asked(stop.value));
        CountsAdd([started, completed],
                  Closing(counted, RunStopped(stop.value, next.version),
                          next.(status := StatusFor(agent.policy, stop.value)), Asked(stop.value)).writes);
      } else {
        SettledCounts(agent, executor, order, next, counted);
        CountsAdd([started, completed], Settled(agent, executor, order, next, counted).writes);
      }
  }

  lemma SettledCounts(agent: Agent, executor: Executor, order: seq<string>, run: Record, counters: Counters)
    requires order != [] && counters.steps <= agent.maxSteps
    ensures var rest := Settled(agent, executor, order, run, counters);
            && counters.steps + Starts(rest.writes) <= agent.maxSteps
            && rest.run.version == run.version + Completions(rest.writes)
    decreases |order|, 0
  {
    match Exhausted(agent, counters)
    case Some(budget) =>
      ClosingCounts(counters, BudgetExhausted(budget, run.version), run.(status := Stopped), BudgetLimit(budget));
    case None =>
      RemainingCounts(agent, executor, order[1..], run, counters);
      assert Starts([Save(run)]) == 0 && Completions([Save(run)]) == 0 by { assert [Save(run)][1..] == []; }
      CountsAdd([Save(run)], Remaining(agent, executor, order[1..], run, counters).writes);
  }

  /** The executor is asked at most `maxSteps` times, and each completed node adds one to the version. */
  lemma StepsAreBounded(agent: Agent, executor: Executor, given: Record)
    ensures var whole := Transcribe(agent, executor, given);
            && Starts(whole.writes) <= agent.maxSteps
            && whole.run.version == given.version + Completions(whole.writes)
  {
    var running := given.(status := Running);
    RemainingCounts(agent, executor, agent.order, running, FRESH);
    assert Starts([Save(running)]) == 0 && Completions([Save(running)]) == 0 by { assert [Save(running)][1..] == []; }
    CountsAdd([Save(running)], Remaining(agent, executor, agent.order, running, FRESH).writes);
  }

  // ---- Every crash point. ----

  /** The trace event that has to stand before a save of this terminal status. */
  predicate Closes(event: TraceEvent, status: Status) {
    match event
    case NodeFailed(_, _) => status.Failed?
    case BudgetExhausted(_, _) => status.Stopped?
    case RunSucceeded(_, _, _, _) => status.Succeeded?
    case RunStopped(reason, _) => if reason.ValidatorPass? then status.Succeeded? else status.Stopped?
    case _ => false
  }

  /** What completed nodes add up to. */
  datatype Totals = Totals(steps: nat, tokens: nat, cost: nat)

  function Added(totals: Totals, write: Write): Totals {
    match write
    case Trace(_, NodeCompleted(_, _, tokens, cost)) =>
      Totals(totals.steps + 1, totals.tokens + tokens, totals.cost + cost)
    case _ => totals
  }

  /** A trace event tells the truth about the nodes completed so far. */
  predicate Faithful(event: TraceEvent, done: nat, totals: Totals) {
    match event
    case NodeStarted(_, version) => version == done
    case NodeCompleted(_, version, _, _) => version == done + 1
    case NodeFailed(_, _) => true
    case BudgetExhausted(_, version) => version == done
    case RunStopped(_, version) => version == done
    case RunSucceeded(version, steps, tokens, cost) =>
      version == done && steps == totals.steps && tokens == Capped(totals.tokens) && cost == Capped(totals.cost)
  }

  /**
   Writes that may follow, given the event before them, the next sequence number, the version the
   completed nodes amount to, the version last saved and the totals so far.
   */
  predicate Orderly(
    writes: seq<Write>, previous: Option<TraceEvent>, sequence: nat, done: nat, saved: nat, totals: Totals)
  {
    && saved <= done <= saved + 1
    && (writes == [] ||
        match writes[0]
        case Trace(number, event) =>
          && number == sequence
          && Faithful(event, done, totals)
          && Orderly(writes[1..], Some(event), sequence + 1, if event.NodeCompleted? then done + 1 else done, saved,
                     Added(totals, writes[0]))
        case Save(record) =>
          && record.version == done
          && (IsTerminal(record.status) ==>
                |writes| == 1 && previous.Some? && Closes(previous.value, record.status))
          && Orderly(writes[1..], None, sequence, done, done, totals))
  }

  lemma PrependTrace(
    rest: seq<Write>, previous: Option<TraceEvent>, sequence: nat, done: nat, saved: nat, totals: Totals,
    event: TraceEvent)
    requires Orderly(rest, Some(event), sequence + 1, if event.NodeCompleted? then done + 1 else done, saved,
                     Added(totals, Trace(sequence, event)))
    requires saved <= done && Faithful(event, done, totals)
    ensures Orderly([Trace(sequence, event)] + rest, previous, sequence, done, saved, totals)
  {
    assert ([Trace(sequence, event)] + rest)[1..] == rest;
  }

  lemma PrependSave(
    rest: seq<Write>, previous: Option<TraceEvent>, sequence: nat, record: Record, saved: nat, totals: Totals)
    requires Orderly(rest, None, sequence, record.version, record.version, totals)
    requires saved <= record.version <= saved + 1
    requires IsTerminal(record.status) ==> rest == [] && previous.Some? && Closes(previous.value, record.status)
    ensures Orderly([Save(record)] + rest, previous, sequence, record.version, saved, totals)
  {
    assert ([Save(record)] + rest)[1..] == rest;
  }

  lemma ClosingIsOrderly(
    counters: Counters, event: TraceEvent, run: Record, ending: Ending, previous: Option<TraceEvent>, saved: nat,
    totals: Totals)
    requires !event.NodeCompleted? && saved <= run.version <= saved + 1 && Faithful(event, run.version, totals)
    requires IsTerminal(run.status) ==> Closes(event, run.status)
    ensures Orderly(Closing(counters, event, run, ending).writes, previous, counters.sequence, run.version, saved, totals)
  {
    PrependSave([], Some(event), counters.sequence + 1, run, saved, totals);
    assert [Save(run)] + [] == [Save(run)];
    PrependTrace([Save(run)], previous, counters.sequence, run.version, saved, totals, event);
    assert [Trace(counters.sequence, event)] + [Save(run)] == Closing(counters, event, run, ending).writes;
  }

  predicate Agrees(counters: Counters, totals: Totals) {
    counters.steps == totals.steps && counters.tokens == Capped(totals.tokens) && counters.cost == Capped(totals.cost)
  }

  lemma {:induction false} RemainingIsOrderly(
    agent: Agent, executor: Executor, order: seq<string>, run: Record, counters: Counters, totals: Totals)
    requires run.status.Running? && Agrees(counters, totals)
    ensures Orderly(Remaining(agent, executor, order, run, counters).writes, None,
                    counters.sequence, run.version, run.version, totals)
    decreases |order|, 2
  {
    if order == [] {
      ClosingIsOrderly(counters, RunSucceeded(run.version, counters.steps, counters.tokens, counters.cost),
                       run.(status := Succeeded), Completion, None, run.version, totals);
    } else if counters.steps >= agent.maxSteps {
      ClosingIsOrderly(counters, BudgetExhausted("max_steps", run.version), run.(status := Stopped), StepLimit,
                       None, run.version, totals);
    } else {
      match FindNode(agent.nodes, order[0])
      case None => RemainingIsOrderly(agent, executor, order[1..], run, counters, totals);
      case Some(node) => SteppedIsOrderly(agent, executor, order, run, counters, totals, node);
    }
  }

  lemma SteppedIsOrderly(
    agent: Agent, executor: Executor, order: seq<string>, run: Record, counters: Counters, totals: Totals, node: GraphNode)
    requires order != [] && run.status.Running? && Agrees(counters, totals)
    ensures Orderly(Stepped(agent, executor, order, run, counters, node).writes, None,
                    counters.sequence, run.version, run.version, totals)
    decreases |order|, 1
  {
    var start := NodeStarted(node, run.version);
    match executor(counters.steps, RequestFor(run, node))
    case Errored(message) =>
      var counted := counters.(sequence := counters.sequence + 1);
      ClosingIsOrderly(counted, NodeFailed(node, message), run.(status := Failed), NodeError, Some(start), run.version,
                       totals);
      PrependTrace(Closing(counted, NodeFailed(node, message), run.(status := Failed), NodeError).writes,
                   None, counters.sequence, run.version, run.version, totals, start);
    case Answered(json, tokens, cost, stop) =>
      AnsweredIsOrderly(agent, executor, order, run, counters, totals, node, Answered(json, tokens, cost, stop));
  }

  lemma AnsweredIsOrderly(
    agent: Agent, executor: Executor, order: seq<string>, run: Record, counters: Counters, totals: Totals,
    node: GraphNode, answer: Answer)
    requires order != [] && run.status.Running? && Agrees(counters, totals)
    requires answer.Answered? && executor(counters.steps, RequestFor(run, node)) == answer
    ensures Orderly(Stepped(agent, executor, order, run, counters, node).writes, None,
                    counters.sequence, run.version, run.version, totals)
    decreases |order|, 0, 1
  {
    var next := run.(version := run.version + 1, json := answer.json);
    var start, complete := NodeStarted(node, run.version), NodeCompleted(node, next.version, answer.tokens, answer.cost);
    var started, completed := Trace(counters.sequence, start), Trace(counters.sequence + 1, complete);
    var counted, more := Count(counters, answer), Added(totals, completed);
    CappedDecidesExactly(totals.tokens, answer.tokens, 0);
    CappedDecidesExactly(totals.cost, answer.cost, 0);
    var rest :=
      if answer.stop.Some? then
        Closing(counted, RunStopped(answer.stop.value, next.version),
                next.(status := StatusFor(agent.policy, answer.stop.value)), Asked(answer.stop.value))
      else Settled(agent, executor, order, next, counted);
    if answer.stop.Some? {
      ClosingIsOrderly(counted, RunStopped(answer.stop.value, next.version),
                       next.(status := StatusFor(agent.policy, answer.stop.value)), Asked(answer.stop.value),
                       Some(complete), run.version, more);
    } else {
      SettledIsOrderly(agent, executor, order, next, counted, more, complete);
    }
    PrependTrace(rest.writes, Some(start), counters.sequence + 1, run.version, run.version, totals, complete);
    PrependTrace([completed] + rest.writes, None, counters.sequence, run.version, run.version, totals, start);
    assert [started] + ([completed] + rest.writes) == [started, completed] + rest.writes;
  }

  lemma SettledIsOrderly(
    agent: Agent, executor: Executor, order: seq<string>, run: Record, counters: Counters, totals: Totals,
    previous: TraceEvent)
    requires order != [] && run.status.Running? && run.version > 0 && Agrees(counters, totals)
    ensures Orderly(Settled(agent, executor, order, run, counters).writes, Some(previous),
                    counters.sequence, run.version, run.version - 1, totals)
    decreases |order|, 0, 0
  {
    match Exhausted(agent, counters)
    case Some(budget) =>
      ClosingIsOrderly(counters, BudgetExhausted(budget, run.version), run.(status := Stopped), BudgetLimit(budget),
                       Some(previous), run.version - 1, totals);
    case None =>
      RemainingIsOrderly(agent, executor, order[1..], run, counters, totals);
      PrependSave(Remaining(agent, executor, order[1..], run, counters).writes, Some(previous),
                  counters.sequence, run, run.version - 1, totals);
  }

  function Traces(writes: seq<Write>): nat {
    if writes == [] then 0 else (if writes[0].Trace? then 1 else 0) + Traces(writes[1..])
  }

  /** The version the last save in a prefix holds. */
  function SavedVersion(writes: seq<Write>, before: nat): nat {
    if writes == [] then before
    else SavedVersion(writes[1..], if writes[0].Save? then writes[0].record.version else before)
  }

  /** What the nodes a prefix completes add to given totals. */
  function TotalsOf(writes: seq<Write>, before: Totals): Totals {
    if writes == [] then before else TotalsOf(writes[1..], Added(before, writes[0]))
  }

  lemma {:induction false} OrderlyPrefix(
    writes: seq<Write>, previous: Option<TraceEvent>, sequence: nat, done: nat, saved: nat, totals: Totals, m: nat)
    requires Orderly(writes, previous, sequence, done, saved, totals) && m <= |writes|
    ensures SavedVersion(writes[..m], saved) <= done + Completions(writes[..m]) <= SavedVersion(writes[..m], saved) + 1
    ensures m < |writes| && writes[m].Trace? ==>
      && writes[m].sequence == sequence + Traces(writes[..m])
      && Faithful(writes[m].event, done + Completions(writes[..m]), TotalsOf(writes[..m], totals))
    ensures m < |writes| && writes[m].Save? && IsTerminal(writes[m].record.status) ==>
      && m == |writes| - 1
      && (m > 0 ==> writes[m - 1].Trace? && Closes(writes[m - 1].event, writes[m].record.status))
      && (m == 0 ==> previous.Some? && Closes(previous.value, writes[0].record.status))
    decreases m
  {
    if m > 0 {
      var head, rest := writes[0], writes[1..];
      assert writes[..m][1..] == rest[..m - 1] && writes[..m][0] == head;
      match head
      case Trace(_, event) =>
        OrderlyPrefix(rest, Some(event), sequence + 1, if event.NodeCompleted? then done + 1 else done, saved,
                      Added(totals, head), m - 1);
      case Save(_) =>
        OrderlyPrefix(rest, None, sequence, done, done, totals, m - 1);
    } else {
      assert writes[..0] == [];
    }
  }

  /**
   At every crash point, i.e. after any number of the writes: trace numbers count 0, 1, 2, ... without
   a gap or repeat and every event tells the version and totals of the nodes completed; a terminal status is saved last and right after its closing event; the completed
   nodes lead the saved version by zero or one; and a call that gets all its writes through has saved
   what it returns.
   */
  lemma EveryCrashPoint(agent: Agent, executor: Executor, given: Record, m: nat)
    requires m <= |Transcribe(agent, executor, given).writes|
    ensures var whole := Transcribe(agent, executor, given);
            var writes := whole.writes;
            && SavedVersion(writes[..m], given.version) <= given.version + Completions(writes[..m])
            && given.version + Completions(writes[..m]) <= SavedVersion(writes[..m], given.version) + 1
            && (m < |writes| && writes[m].Trace? ==>
                  && writes[m].sequence == Traces(writes[..m])
                  && Faithful(writes[m].event, given.version + Completions(writes[..m]),
                              TotalsOf(writes[..m], Totals(0, 0, 0))))
            && (m < |writes| && writes[m].Save? && IsTerminal(writes[m].record.status) ==>
                  m == |writes| - 1 && m > 0 && writes[m - 1].Trace? && Closes(writes[m - 1].event, writes[m].record.status))
            && writes != [] && writes[|writes| - 1] == Save(whole.run)
  {
    var running := given.(status := Running);
    var rest := Remaining(agent, executor, agent.order, running, FRESH);
    RemainingIsOrderly(agent, executor, agent.order, running, FRESH, Totals(0, 0, 0));
    PrependSave(rest.writes, None, 0, running, given.version, Totals(0, 0, 0));
    OrderlyPrefix(Transcribe(agent, executor, given).writes, None, 0, given.version, given.version, Totals(0, 0, 0), m);
    SavesWhatItReturns(agent, executor, agent.order, running, FRESH);
  }

  predicate EndsSaved(transcript: Transcript) {
    transcript.writes != [] && transcript.writes[|transcript.writes| - 1] == Save(transcript.run)
  }

  lemma {:induction false} SavesWhatItReturns(
    agent: Agent, executor: Executor, order: seq<string>, run: Record, counters: Counters)
    ensures EndsSaved(Remaining(agent, executor, order, run, counters))
    decreases |order|
  {
    if order != [] && counters.steps < agent.maxSteps {
      match FindNode(agent.nodes, order[0])
      case None => SavesWhatItReturns(agent, executor, order[1..], run, counters);
      case Some(node) =>
        match executor(counters.steps, RequestFor(run, node))
        case Errored(_) =>
          assert EndsSaved(Stepped(agent, executor, order, run, counters, node));
        case Answered(json, tokens, cost, stop) =>
          var next := run.(version := run.version + 1, json := json);
          var counted := Count(counters, Answered(json, tokens, cost, stop));
          SavesWhatItReturns(agent, executor, order[1..], next, counted);
          assert EndsSaved(Settled(agent, executor, order, next, counted));
          assert EndsSaved(Stepped(agent, executor, order, run, counters, node));
    }
  }
}
