/**
 What the fold accumulates, read off the log directly: what a run has spent, what its loops measured,
 and what a new iteration forgets (crates/runtime/src/state.rs).
 */
module RunTallies {
  import opened Wrappers
  import opened Identifiers
  import opened RunEvents
  import opened RunStates

  // ---- Spending. ----

  /** The exact sums of everything a log spends. */
  function Spending(log: seq<RecordedEvent>): Spent {
    if log == [] then Spent(0, 0, 0, 0)
    else
      var before := Spending(log[..|log| - 1]);
      match log[|log| - 1].event
      case EffectClaimed(_, _, _, _) => before.(effects := before.effects + 1)
      case IterationFinished(_, record) =>
        before.(wallMs := before.wallMs + record.spent.wallMs,
                tokens := before.tokens + record.spent.tokens,
                costMicroUnits := before.costMicroUnits + record.spent.costMicroUnits)
      case _ => before
  }

  function Capped(spent: Spent): Spent {
    Spent(SaturatingAdd(spent.wallMs, 0, U64_MAX), SaturatingAdd(spent.tokens, 0, U64_MAX),
          SaturatingAdd(spent.costMicroUnits, 0, U64_MAX), SaturatingAdd(spent.effects, 0, U32_MAX))
  }

  /** No restart loses or repeats spending: the fold's counters are the log's sums, capped. */
  lemma {:induction false} FoldCountsSpending(log: seq<RecordedEvent>)
    requires Fold(log).Ok?
    ensures Fold(log).value.spent == Capped(Spending(log))
  {
    if |log| > 1 {
      var before, last := log[..|log| - 1], log[|log| - 1];
      FoldCountsSpending(before);
      hide ApplyEvent;
      ApplyCountsSpending(Fold(before).value, last.event, last.at);
    } else {
      assert log[..0] == [];
    }
  }

  lemma ApplyCountsSpending(state: RunState, event: RunEvent, at: Time)
    requires ApplyEvent(state, event, at).Ok?
    ensures var spent := ApplyEvent(state, event, at).value.spent;
            spent == match event
                     case EffectClaimed(_, _, _, _) =>
                       state.spent.(effects := SaturatingAdd(state.spent.effects, 1, U32_MAX))
                     case IterationFinished(_, record) =>
                       state.spent.(
                         wallMs := SaturatingAdd(state.spent.wallMs, record.spent.wallMs, U64_MAX),
                         tokens := SaturatingAdd(state.spent.tokens, record.spent.tokens, U64_MAX),
                         costMicroUnits := SaturatingAdd(state.spent.costMicroUnits, record.spent.costMicroUnits, U64_MAX))
                     case _ => state.spent
  {
  }

  // ---- Measures. ----

  /** The progress readings a loop's iterations reported, oldest first. */
  function Readings(log: seq<RecordedEvent>, region: Identifier): seq<int> {
    if log == [] then []
    else
      var before := Readings(log[..|log| - 1], region);
      match log[|log| - 1].event
      case IterationFinished(own, record) =>
        if own == region && record.progress.Some? then before + [record.progress.value] else before
      case _ => before
  }

  /** How often the last reading merely repeated the one before it, in a row. */
  function Repeats(readings: seq<int>): nat {
    if |readings| < 2 || readings[|readings| - 1] != readings[|readings| - 2] then 0
    else 1 + Repeats(readings[..|readings| - 1])
  }

  function FromEnd(readings: seq<int>, back: nat): Option<int> {
    if back < |readings| then Some(readings[|readings| - 1 - back]) else None
  }

  ghost predicate Measured(progress: LoopProgress, readings: seq<int>) {
    && progress.lastProgress == FromEnd(readings, 0)
    && progress.previousProgress == FromEnd(readings, 1)
    && progress.stalled == SaturatingAdd(Repeats(readings), 0, U32_MAX)
  }

  lemma ApplyMeasures(state: RunState, event: RunEvent, at: Time, region: Identifier, readings: seq<int>)
    requires ApplyEvent(state, event, at).Ok? && Measured(state.LoopOf(region), readings)
    ensures var more := if event.IterationFinished? && event.region == region && event.record.progress.Some?
                        then readings + [event.record.progress.value] else readings;
            Measured(ApplyEvent(state, event, at).value.LoopOf(region), more)
  {
    if event.IterationFinished? && event.region == region && event.record.progress.Some? {
      var more := readings + [event.record.progress.value];
      assert more[..|readings|] == readings;
      assert FromEnd(more, 1) == FromEnd(readings, 0);
    }
  }

  /** A loop's last two readings and its standstill are those of the log, across restarts and takeovers. */
  lemma {:induction false} FoldMeasuresLoops(log: seq<RecordedEvent>, region: Identifier)
    requires Fold(log).Ok?
    ensures Measured(Fold(log).value.LoopOf(region), Readings(log, region))
  {
    if |log| > 1 {
      var before, last := log[..|log| - 1], log[|log| - 1];
      FoldMeasuresLoops(before, region);
      hide ApplyEvent, Measured;
      ApplyMeasures(Fold(before).value, last.event, last.at, region, Readings(before, region));
    } else {
      assert log[..0] == [];
    }
  }

  // ---- A new iteration. ----

  /** An iteration starts with nothing known of its members, and everything else as it was. */
  lemma IterationStartsClean(state: RunState, event: RunEvent, at: Time, node: Identifier)
    requires event.IterationStarted? && ApplyEvent(state, event, at).Ok?
    ensures var after := ApplyEvent(state, event, at).value;
            if node in event.members then
              && !after.HasFinished(node) && node !in after.running && after.FailuresOf(node) == []
              && forall port :: after.ControlOf(node, port).None?
            else
              && (after.HasFinished(node) <==> state.HasFinished(node)) && after.OutputsOf(node) == state.OutputsOf(node)
              && (node in after.running <==> node in state.running) && after.FailuresOf(node) == state.FailuresOf(node)
              && forall port :: after.ControlOf(node, port) == state.ControlOf(node, port)
  {
  }
}
