/** Logs as a whole: the longest prefix that folds, and the status column projected from it. */
module RunLogs {
  import opened Wrappers
  import opened RunEvents
  import opened RunStates
  import opened GraphWorkers

  /** The state of the longest foldable prefix, and the position that broke the fold, if any. */
  datatype Scan = Scan(state: RunState, broken: Option<nat>)

  function ScanLog(log: seq<RecordedEvent>): Scan
    requires log != []
  {
    if |log| == 1 then Scan(Opening(log[0].epoch), None)
    else Extend(ScanLog(log[..|log| - 1]), log[|log| - 1], |log| - 1)
  }

  function Extend(scan: Scan, recorded: RecordedEvent, position: nat): Scan {
    if scan.broken.Some? then scan
    else
      match Apply(scan.state, recorded)
      case Ok(state) => Scan(state, None)
      case Err(_) => Scan(scan.state, Some(position))
  }

  lemma ScanAppend(log: seq<RecordedEvent>, recorded: RecordedEvent)
    requires log != []
    ensures ScanLog(log + [recorded]) == Extend(ScanLog(log), recorded, |log|)
  {
    assert (log + [recorded])[..|log|] == log;
  }

  /** The fold accepts exactly the unbroken logs, and agrees with the scan on them. */
  lemma {:induction false} ScanIsFold(log: seq<RecordedEvent>)
    requires Opens(log)
    ensures Fold(log).Ok? <==> ScanLog(log).broken.None?
    ensures Fold(log).Ok? ==> Fold(log).value == ScanLog(log).state
  {
    if |log| > 1 {
      ScanIsFold(log[..|log| - 1]);
    }
  }

  lemma FoldMovesStatus(state: RunState, event: RunEvent, at: Time)
    requires ApplyEvent(state, event, at).Ok?
    ensures ApplyEvent(state, event, at).value.status == StatusAfter(event, state.status)
  {
  }

  /** Column and fold agree on the status of every log that folds. */
  lemma {:induction false} ProjectionAgrees(log: seq<RecordedEvent>)
    requires Fold(log).Ok?
    ensures ProjectedStatus(log) == Fold(log).value.status
  {
    if |log| > 1 {
      var before := log[..|log| - 1];
      ProjectionAgrees(before);
      hide ApplyEvent;
      FoldMovesStatus(Fold(before).value, log[|log| - 1].event, log[|log| - 1].at);
    } else {
      assert log[..0] == [];
    }
  }
}
