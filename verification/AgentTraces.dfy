/**
 Agent runs that are called more than once. A call can hand back a run that is still running; the next
 call numbers its trace from 0 again, and the store keeps one row for a number
 (`append_agent_trace_event` in crates/postgres/src/agents.rs), so earlier events are replaced.
 */
module AgentTraces {
  import opened Wrappers
  import opened AgentRuntime
  import opened AgentRuns

  // ---- Runs handed back running. ----

  /** The entry a call stops at asks to stop, within the step limit, for a reason the policy does not name. */
  predicate AsksUnnamed(agent: Agent, executor: Executor, given: Record, q: nat)
    requires q <= |agent.order|
  {
    && q < |agent.order|
    && PointAt(agent, executor, given, q).steps < agent.maxSteps
    && var answer := AnswerAt(agent, executor, given, q);
       answer.Some? && answer.value.Answered? && answer.value.stop.Some?
       && !Names(agent.policy, answer.value.stop.value)
  }

  /** A call hands a run back running exactly when the first entry to stop it asks for an unnamed reason. */
  lemma StaysRunningExactlyWhen(agent: Agent, executor: Executor, given: Record)
    requires Machine(agent)
    ensures var status := Transcribe(agent, executor, given).run.status;
            && (IsTerminal(status) || status.Running?)
            && (status.Running? <==> AsksUnnamed(agent, executor, given, FirstObstacle(agent, executor, given, 0)))
  {
    StopsAtTheFirstObstacle(agent, executor, given);
    hide Transcribe;
  }

  // ---- Rows kept by number. ----

  /** The trace events of some writes, in order. */
  function Events(writes: seq<Write>): seq<TraceEvent> {
    if writes == [] then []
    else
      var last := writes[|writes| - 1];
      Events(writes[..|writes| - 1]) + (if last.Trace? then [last.event] else [])
  }

  /** The stored rows after some writes: a number that is taken is overwritten. */
  function Stored(rows: map<nat, TraceEvent>, writes: seq<Write>): map<nat, TraceEvent> {
    if writes == [] then rows
    else
      var before, last := Stored(rows, writes[..|writes| - 1]), writes[|writes| - 1];
      if last.Trace? then before[last.sequence := last.event] else before
  }

  lemma {:induction false} TracesAdd(first: seq<Write>, second: seq<Write>)
    ensures Traces(first + second) == Traces(first) + Traces(second)
  {
    if first == [] {
      assert first + second == second;
    } else {
      assert (first + second)[1..] == first[1..] + second;
      TracesAdd(first[1..], second);
    }
  }

  lemma {:induction false} EventsAreTraces(writes: seq<Write>)
    ensures |Events(writes)| == Traces(writes)
  {
    if writes != [] {
      var before, last := writes[..|writes| - 1], writes[|writes| - 1];
      EventsAreTraces(before);
      assert writes == before + [last] && [last][1..] == [];
      TracesAdd(before, [last]);
      assert Traces([last]) == if last.Trace? then 1 else 0;
    }
  }

  /** Trace numbers count 0, 1, 2, ... */
  ghost predicate Numbered(writes: seq<Write>) {
    forall i :: 0 <= i < |writes| && writes[i].Trace? ==> writes[i].sequence == |Events(writes[..i])|
  }

  lemma CallsAreNumbered(agent: Agent, executor: Executor, given: Record, m: nat)
    requires m <= |Transcribe(agent, executor, given).writes|
    ensures Numbered(Transcribe(agent, executor, given).writes[..m])
  {
    var writes := Transcribe(agent, executor, given).writes;
    hide Transcribe;
    forall i | 0 <= i < m && writes[..m][i].Trace?
      ensures writes[..m][i].sequence == |Events(writes[..m][..i])|
    {
      assert writes[..m][..i] == writes[..i];
      EveryCrashPoint(agent, executor, given, i);
      EventsAreTraces(writes[..i]);
    }
  }

  /** Numbered writes fill the first rows with their events and leave the others. */
  lemma {:induction false} NumberedWritesReplaceRows(rows: map<nat, TraceEvent>, writes: seq<Write>, n: nat)
    requires Numbered(writes)
    ensures var after, events := Stored(rows, writes), Events(writes);
            && (n in after <==> n in rows || n < |events|)
            && (n in after ==> after[n] == if n < |events| then events[n] else rows[n])
  {
    if writes != [] {
      var before, last := writes[..|writes| - 1], writes[|writes| - 1];
      assert forall i :: 0 <= i < |before| ==> before[..i] == writes[..i];
      NumberedWritesReplaceRows(rows, before, n);
      assert writes[..|writes| - 1] == before;
    }
  }

  /**
   What a second call leaves of the first one's trace, wherever the second is cut off: exactly the events
   numbered from its own count on. Everything before is the second call's.
   */
  lemma SecondCallReplacesRows(
    agent: Agent, executor: Executor, given: Record, later: Agent, laterExecutor: Executor, again: Record, m: nat, n: nat)
    requires m <= |Transcribe(later, laterExecutor, again).writes|
    ensures var first := Transcribe(agent, executor, given).writes;
            var second := Transcribe(later, laterExecutor, again).writes[..m];
            var rows := Stored(Stored(map[], first), second);
            && (n in rows <==> n < |Events(first)| || n < |Events(second)|)
            && (n < |Events(second)| ==> rows[n] == Events(second)[n])
            && (|Events(second)| <= n < |Events(first)| ==> rows[n] == Events(first)[n])
  {
    var first := Transcribe(agent, executor, given).writes;
    var second := Transcribe(later, laterExecutor, again).writes[..m];
    CallsAreNumbered(agent, executor, given, |first|);
    CallsAreNumbered(later, laterExecutor, again, m);
    assert first[..|first|] == first;
    hide Transcribe, Numbered;
    NumberedWritesReplaceRows(map[], first, n);
    NumberedWritesReplaceRows(Stored(map[], first), second, n);
  }

  /** No call is without events, so a second one always replaces the first row. */
  lemma EveryCallLeavesEvents(agent: Agent, executor: Executor, given: Record)
    ensures |Events(Transcribe(agent, executor, given).writes)| >= 1
  {
    var writes := Transcribe(agent, executor, given).writes;
    StartsWithATrace(agent, executor, agent.order, given.(status := Running), FRESH);
    assert writes[1].Trace?;
    EventsAreTraces(writes);
    assert writes == writes[..1] + ([writes[1]] + writes[2..]);
    TracesAdd(writes[..1], [writes[1]] + writes[2..]);
    assert ([writes[1]] + writes[2..])[0] == writes[1];
  }

  lemma {:induction false} StartsWithATrace(
    agent: Agent, executor: Executor, order: seq<string>, run: Record, counters: Counters)
    ensures var writes := Remaining(agent, executor, order, run, counters).writes; |writes| >= 2 && writes[0].Trace?
    decreases |order|
  {
    if order != [] && counters.steps < agent.maxSteps && FindNode(agent.nodes, order[0]).None? {
      StartsWithATrace(agent, executor, order[1..], run, counters);
    }
  }

  // ---- One run, called twice. ----

  const NODE := GraphNode("n", "model")

  /** One node, and a policy that names no reason to stop. */
  const AGENT := Agent("a", [NODE], ["n"], 10, 10, 10, Policy(false, false, false, false))

  const QUEUED := Record("r", "a", Queued, 0, "")

  const UNSAFE: Executor := (call, request) => Answered("x", 1, 1, Some(SafetyFailure))

  const FAILING: Executor := (call, request) => Errored("down")

  lemma FirstCall()
    ensures var whole := Transcribe(AGENT, UNSAFE, QUEUED);
            && whole.run == Record("r", "a", Running, 1, "x")
            && whole.writes ==
                 [Save(QUEUED.(status := Running)), Trace(0, NodeStarted(NODE, 0)), Trace(1, NodeCompleted(NODE, 1, 1, 1)),
                  Trace(2, RunStopped(SafetyFailure, 1)), Save(whole.run)]
  {
    var running := QUEUED.(status := Running);
    assert FindNode(AGENT.nodes, AGENT.order[0]) == Some(NODE);
    var rest := Stepped(AGENT, UNSAFE, AGENT.order, running, FRESH, NODE);
    assert Remaining(AGENT, UNSAFE, AGENT.order, running, FRESH) == rest;
    assert rest.writes == [Trace(0, NodeStarted(NODE, 0)), Trace(1, NodeCompleted(NODE, 1, 1, 1))]
                          + [Trace(2, RunStopped(SafetyFailure, 1)), Save(rest.run)];
  }

  lemma SecondCall()
    ensures var again := Record("r", "a", Running, 1, "x");
            var whole := Transcribe(AGENT, FAILING, again);
            && whole.run == again.(status := Failed)
            && whole.writes ==
                 [Save(again), Trace(0, NodeStarted(NODE, 1)), Trace(1, NodeFailed(NODE, "down")), Save(whole.run)]
  {
    var again := Record("r", "a", Running, 1, "x");
    assert FindNode(AGENT.nodes, AGENT.order[0]) == Some(NODE);
    var rest := Stepped(AGENT, FAILING, AGENT.order, again, FRESH, NODE);
    assert Remaining(AGENT, FAILING, AGENT.order, again, FRESH) == rest;
    assert rest.writes == [Trace(0, NodeStarted(NODE, 1))] + [Trace(1, NodeFailed(NODE, "down")), Save(rest.run)];
  }

  /**
   A safety stop nobody named leaves the run running; the second call fails. The rows then hold the second
   call's start and failure followed by the first call's stop, and the first call's completed node is gone.
   */
  lemma CalledTwice()
    ensures var first := Transcribe(AGENT, UNSAFE, QUEUED);
            var second := Transcribe(AGENT, FAILING, first.run);
            && first.run.status.Running? && second.run.status.Failed?
            && Stored(Stored(map[], first.writes), second.writes) ==
                 map[0 := NodeStarted(NODE, 1), 1 := NodeFailed(NODE, "down"), 2 := RunStopped(SafetyFailure, 1)]
  {
    FirstCall();
    SecondCall();
    var first := Transcribe(AGENT, UNSAFE, QUEUED);
    var second := Transcribe(AGENT, FAILING, first.run);
    hide Transcribe;
    var w, v := first.writes, second.writes;
    assert |w| == 5 && |v| == 4;
    StoreOne(map[], w, 0);
    StoreOne(map[], w, 1);
    StoreOne(map[], w, 2);
    StoreOne(map[], w, 3);
    StoreOne(map[], w, 4);
    var rows := Stored(map[], w);
    assert w[..5] == w && v[..4] == v;
    assert rows == map[0 := NodeStarted(NODE, 0), 1 := NodeCompleted(NODE, 1, 1, 1), 2 := RunStopped(SafetyFailure, 1)];
    StoreOne(rows, v, 0);
    StoreOne(rows, v, 1);
    StoreOne(rows, v, 2);
    StoreOne(rows, v, 3);
  }

  lemma StoreOne(rows: map<nat, TraceEvent>, writes: seq<Write>, i: nat)
    requires i < |writes|
    ensures Stored(rows, writes[..i + 1]) ==
      if writes[i].Trace? then Stored(rows, writes[..i])[writes[i].sequence := writes[i].event]
      else Stored(rows, writes[..i])
    ensures i == 0 ==> Stored(rows, writes[..i]) == rows
  {
    assert writes[..i + 1][..i] == writes[..i];
  }
}
