/**
 The fold, read off the log: every field of a folded state is what the last relevant event of the log
 says, or the events still open, in order. Nothing here uses the fold's own steps to say what it means.
 */
module LogReadings {
  import opened Wrappers
  import opened Identifiers
  import opened Definition
  import opened RunEvents
  import opened RunStates

  type Test = RunEvent -> bool

  /** The event at `p` passes, and nothing after it passes or cancels it. */
  ghost predicate IsLatest(log: seq<RecordedEvent>, hit: Test, cancel: Test, p: nat) {
    && p < |log| && hit(log[p].event)
    && forall q :: p < q < |log| ==> !hit(log[q].event) && !cancel(log[q].event)
  }

  /** Where the latest event that passes stands, unless a later one cancels it. */
  function Latest(log: seq<RecordedEvent>, hit: Test, cancel: Test): (p: Option<nat>)
    ensures p.Some? ==> IsLatest(log, hit, cancel, p.value)
    ensures p.None? ==> forall q :: !IsLatest(log, hit, cancel, q)
  {
    if log == [] then None
    else
      var before, last := log[..|log| - 1], log[|log| - 1].event;
      if hit(last) then Some(|log| - 1)
      else if cancel(last) then None
      else
        var p := Latest(before, hit, cancel);
        assert p.None? ==> forall q :: IsLatest(log, hit, cancel, q) ==> IsLatest(before, hit, cancel, q);
        p
  }

  lemma LatestGrows(log: seq<RecordedEvent>, recorded: RecordedEvent, hit: Test, cancel: Test)
    ensures Latest(log + [recorded], hit, cancel) ==
      if hit(recorded.event) then Some(|log|)
      else if cancel(recorded.event) then None
      else Latest(log, hit, cancel)
  {
    assert (log + [recorded])[..|log|] == log;
  }

  function Count(log: seq<RecordedEvent>, hit: Test): nat {
    if log == [] then 0
    else Count(log[..|log| - 1], hit) + (if hit(log[|log| - 1].event) then 1 else 0)
  }

  lemma CountGrows(log: seq<RecordedEvent>, recorded: RecordedEvent, hit: Test)
    ensures Count(log + [recorded], hit) == Count(log, hit) + if hit(recorded.event) then 1 else 0
  {
    assert (log + [recorded])[..|log|] == log;
  }

  function Never(): Test {
    (event: RunEvent) => false
  }

  // ---- Nodes. ----

  /** An iteration that takes the node in forgets it. */
  function Forgets(node: Identifier): Test {
    (event: RunEvent) => event.IterationStarted? && node in event.members
  }

  function Finishes(node: Identifier): Test {
    (event: RunEvent) => event.NodeFinished? && event.node == node
  }

  function Starts(node: Identifier): Test {
    (event: RunEvent) => event.NodeStarted? && event.node == node
  }

  function EndsOrForgets(node: Identifier): Test {
    (event: RunEvent) =>
      || ((event.NodeFinished? || event.NodeFailed?) && event.node == node)
      || (event.IterationStarted? && node in event.members)
  }

  function ReportsOn(node: Identifier, port: string): Test {
    (event: RunEvent) => event.NodeFinished? && event.node == node && port in event.control
  }

  /** What a node produced: the outputs of its latest finish since an iteration last took it in. */
  function OutputsIn(log: seq<RecordedEvent>, node: Identifier): Option<Outputs> {
    var p := Latest(log, Finishes(node), Forgets(node));
    if p.Some? then Some(log[p.value].event.outputs) else None
  }

  function StartedIn(log: seq<RecordedEvent>, node: Identifier): Option<Time> {
    var p := Latest(log, Starts(node), EndsOrForgets(node));
    if p.Some? then Some(log[p.value].at) else None
  }

  function ControlIn(log: seq<RecordedEvent>, node: Identifier, port: string): Option<ControlValue> {
    var p := Latest(log, ReportsOn(node, port), Forgets(node));
    if p.Some? then Some(log[p.value].event.control[port]) else None
  }

  /** The failures a node reported since an iteration last took it in, oldest first. */
  function FailuresIn(log: seq<RecordedEvent>, node: Identifier): seq<ReportedFailure> {
    if log == [] then []
    else
      var before := FailuresIn(log[..|log| - 1], node);
      match log[|log| - 1].event
      case NodeFailed(failed, failure, detail) =>
        if failed == node then before + [ReportedFailure(failure, detail)] else before
      case IterationStarted(_, _, members) => if node in members then [] else before
      case _ => before
  }

  ghost predicate OutputsRead(log: seq<RecordedEvent>, state: RunState, node: Identifier) {
    OutputsIn(log, node) == if node in state.finished then Some(state.finished[node]) else None
  }

  ghost predicate RunningRead(log: seq<RecordedEvent>, state: RunState, node: Identifier) {
    StartedIn(log, node) == if node in state.running then Some(state.running[node]) else None
  }

  ghost predicate ControlRead(log: seq<RecordedEvent>, state: RunState, node: Identifier, port: string) {
    ControlIn(log, node, port) == state.ControlOf(node, port)
  }

  ghost predicate FailuresRead(log: seq<RecordedEvent>, state: RunState, node: Identifier) {
    FailuresIn(log, node) == state.FailuresOf(node)
  }

  lemma ApplyReadsOutputs(log: seq<RecordedEvent>, state: RunState, recorded: RecordedEvent, node: Identifier)
    requires OutputsRead(log, state, node) && ApplyEvent(state, recorded.event, recorded.at).Ok?
    ensures OutputsRead(log + [recorded], ApplyEvent(state, recorded.event, recorded.at).value, node)
  {
    LatestGrows(log, recorded, Finishes(node), Forgets(node));
    hide Latest, Without;
  }

  lemma ApplyReadsRunning(log: seq<RecordedEvent>, state: RunState, recorded: RecordedEvent, node: Identifier)
    requires RunningRead(log, state, node) && ApplyEvent(state, recorded.event, recorded.at).Ok?
    ensures RunningRead(log + [recorded], ApplyEvent(state, recorded.event, recorded.at).value, node)
  {
    LatestGrows(log, recorded, Starts(node), EndsOrForgets(node));
    hide Latest, Without;
  }

  lemma ApplyReadsControl(
    log: seq<RecordedEvent>, state: RunState, recorded: RecordedEvent, node: Identifier, port: string)
    requires ControlRead(log, state, node, port) && ApplyEvent(state, recorded.event, recorded.at).Ok?
    ensures ControlRead(log + [recorded], ApplyEvent(state, recorded.event, recorded.at).value, node, port)
  {
    LatestGrows(log, recorded, ReportsOn(node, port), Forgets(node));
    hide Latest, Without;
    if recorded.event.NodeFinished? && recorded.event.node == node && port in recorded.event.control {
      assert (node, port) in set each | each in recorded.event.control :: (node, each);
    }
  }

  lemma ApplyReadsFailures(log: seq<RecordedEvent>, state: RunState, recorded: RecordedEvent, node: Identifier)
    requires FailuresRead(log, state, node) && ApplyEvent(state, recorded.event, recorded.at).Ok?
    ensures FailuresRead(log + [recorded], ApplyEvent(state, recorded.event, recorded.at).value, node)
  {
    FailuresAfter(state, recorded.event, recorded.at, node);
    hide ApplyEvent;
    assert (log + [recorded])[..|log|] == log;
  }

  lemma FailuresAfter(state: RunState, event: RunEvent, at: Time, node: Identifier)
    requires ApplyEvent(state, event, at).Ok?
    ensures ApplyEvent(state, event, at).value.FailuresOf(node) ==
      if event.NodeFailed? && event.node == node then state.FailuresOf(node) + [ReportedFailure(event.failure, event.detail)]
      else if event.IterationStarted? && node in event.members then []
      else state.FailuresOf(node)
  {
    hide Without;
  }

  /** What a state knows of a node, all from the log. */
  ghost predicate NodeRead(log: seq<RecordedEvent>, state: RunState, node: Identifier, port: string) {
    && OutputsRead(log, state, node) && RunningRead(log, state, node)
    && ControlRead(log, state, node, port) && FailuresRead(log, state, node)
  }

  // ---- Loops. ----

  function Opens(region: Identifier): Test {
    (event: RunEvent) => event.IterationStarted? && event.region == region
  }

  function Closes(region: Identifier): Test {
    (event: RunEvent) => event.IterationFinished? && event.region == region
  }

  function Stops(region: Identifier): Test {
    (event: RunEvent) => event.LoopStopped? && event.region == region
  }

  function OpenedIn(log: seq<RecordedEvent>, region: Identifier): Option<Time> {
    var p := Latest(log, Opens(region), Never());
    if p.Some? then Some(log[p.value].at) else None
  }

  /** The first invariant that did not hold in the iteration closed last. */
  function BrokenIn(log: seq<RecordedEvent>, region: Identifier): Option<Identifier> {
    var p := Latest(log, Closes(region), Never());
    if p.Some? then FirstBroken(log[p.value].event.record.invariants) else None
  }

  function StoppedIn(log: seq<RecordedEvent>, region: Identifier): Option<StopReason> {
    var p := Latest(log, Stops(region), Never());
    if p.Some? then Some(log[p.value].event.reason) else None
  }

  ghost predicate LoopRead(log: seq<RecordedEvent>, state: RunState, region: Identifier) {
    var progress := state.LoopOf(region);
    && progress.openedAt == OpenedIn(log, region)
    && progress.failedInvariant == BrokenIn(log, region)
    && progress.stopped == StoppedIn(log, region)
    && progress.started == SaturatingAdd(Count(log, Opens(region)), 0, U32_MAX)
    && progress.finished == SaturatingAdd(Count(log, Closes(region)), 0, U32_MAX)
  }

  lemma ApplyReadsLoop(log: seq<RecordedEvent>, state: RunState, recorded: RecordedEvent, region: Identifier)
    requires LoopRead(log, state, region) && ApplyEvent(state, recorded.event, recorded.at).Ok?
    ensures LoopRead(log + [recorded], ApplyEvent(state, recorded.event, recorded.at).value, region)
  {
    LoopAfter(state, recorded.event, recorded.at, region);
    hide ApplyEvent, Latest, Count, FirstBroken;
    LatestGrows(log, recorded, Opens(region), Never());
    LatestGrows(log, recorded, Closes(region), Never());
    LatestGrows(log, recorded, Stops(region), Never());
    CountGrows(log, recorded, Opens(region));
    CountGrows(log, recorded, Closes(region));
  }

  lemma LoopAfter(state: RunState, event: RunEvent, at: Time, region: Identifier)
    requires ApplyEvent(state, event, at).Ok?
    ensures var before, after := state.LoopOf(region), ApplyEvent(state, event, at).value.LoopOf(region);
            var opens := event.IterationStarted? && event.region == region;
            var closes := event.IterationFinished? && event.region == region;
            && after.openedAt == (if opens then Some(at) else before.openedAt)
            && after.failedInvariant == (if closes then FirstBroken(event.record.invariants) else before.failedInvariant)
            && after.stopped == (if event.LoopStopped? && event.region == region then Some(event.reason) else before.stopped)
            && after.started == (if opens then SaturatingAdd(before.started, 1, U32_MAX) else before.started)
            && after.finished == (if closes then SaturatingAdd(before.finished, 1, U32_MAX) else before.finished)
  {
    hide Without, FirstBroken;
  }

  /** The first outcome that did not hold. */
  lemma {:induction false} FirstBrokenIs(outcomes: seq<InvariantOutcome>)
    ensures match FirstBroken(outcomes)
            case None => forall i :: 0 <= i < |outcomes| ==> outcomes[i].held
            case Some(id) =>
              exists i :: (
                && 0 <= i < |outcomes| && !outcomes[i].held && outcomes[i].invariantId == id
                && forall j :: 0 <= j < i ==> outcomes[j].held)
  {
    if outcomes != [] && outcomes[0].held {
      FirstBrokenIs(outcomes[1..]);
      assert forall i :: 0 <= i < |outcomes| - 1 ==> outcomes[1..][i] == outcomes[i + 1];
    }
  }

  // ---- The run. ----

  function Suspends(): Test {
    (event: RunEvent) => event.Suspended?
  }

  function Resumes(): Test {
    (event: RunEvent) => event.Resumed?
  }

  function StartsRun(): Test {
    (event: RunEvent) => event.Started?
  }

  function AsksToCancel(): Test {
    (event: RunEvent) => event.CancellationRequested?
  }

  function Fails(): Test {
    (event: RunEvent) => event.Failed?
  }

  function WaitIn(log: seq<RecordedEvent>): Option<Wait> {
    var p := Latest(log, Suspends(), Resumes());
    if p.Some? then Some(log[p.value].event.wait) else None
  }

  function RunStartedIn(log: seq<RecordedEvent>): Option<Time> {
    var p := Latest(log, StartsRun(), Never());
    if p.Some? then Some(log[p.value].at) else None
  }

  function CancelIn(log: seq<RecordedEvent>): Option<Identifier> {
    var p := Latest(log, AsksToCancel(), Never());
    if p.Some? then Some(log[p.value].event.who) else None
  }

  function FailureIn(log: seq<RecordedEvent>): Option<RunFailure> {
    var p := Latest(log, Fails(), Never());
    if p.Some? then Some(log[p.value].event.failed) else None
  }

  ghost predicate RunRead(log: seq<RecordedEvent>, state: RunState) {
    && state.waitingOn == WaitIn(log)
    && state.startedAt == RunStartedIn(log)
    && state.cancelRequested == CancelIn(log)
    && state.failure == FailureIn(log)
  }

  lemma ApplyReadsRun(log: seq<RecordedEvent>, state: RunState, recorded: RecordedEvent)
    requires RunRead(log, state) && ApplyEvent(state, recorded.event, recorded.at).Ok?
    ensures RunRead(log + [recorded], ApplyEvent(state, recorded.event, recorded.at).value)
  {
    RunAfter(state, recorded.event, recorded.at);
    hide Latest, ApplyEvent;
    LatestGrows(log, recorded, Suspends(), Resumes());
    LatestGrows(log, recorded, StartsRun(), Never());
    LatestGrows(log, recorded, AsksToCancel(), Never());
    LatestGrows(log, recorded, Fails(), Never());
  }

  lemma RunAfter(state: RunState, event: RunEvent, at: Time)
    requires ApplyEvent(state, event, at).Ok?
    ensures var after := ApplyEvent(state, event, at).value;
            && after.waitingOn == (if event.Suspended? then Some(event.wait)
                                   else if event.Resumed? then None else state.waitingOn)
            && after.startedAt == (if event.Started? then Some(at) else state.startedAt)
            && after.cancelRequested == (if event.CancellationRequested? then Some(event.who) else state.cancelRequested)
            && after.failure == (if event.Failed? then Some(event.failed) else state.failure)
  {
    hide Without;
  }

  // ---- Effects. ----

  function Finalizes(done: EffectRef): Test {
    (event: RunEvent) => event.EffectFinalized? && (event.node, event.effect) == done
  }

  function Undoes(done: EffectRef): Test {
    (event: RunEvent) => event.Compensated? && (event.node, event.effect) == done
  }

  function GivesUp(done: EffectRef): Test {
    (event: RunEvent) => event.EffectUncertain? && (event.node, event.effect) == done
  }

  ghost predicate EffectRead(log: seq<RecordedEvent>, state: RunState, done: EffectRef) {
    && (done in state.completed <==> Count(log, Finalizes(done)) > 0)
    && (done in state.compensated <==> Count(log, Undoes(done)) > 0)
    && (done in state.uncertain <==> Count(log, GivesUp(done)) > 0)
    && multiset(state.finalizedOrder)[done] == Count(log, Finalizes(done))
  }

  lemma ApplyReadsEffect(log: seq<RecordedEvent>, state: RunState, recorded: RecordedEvent, done: EffectRef)
    requires EffectRead(log, state, done) && ApplyEvent(state, recorded.event, recorded.at).Ok?
    ensures EffectRead(log + [recorded], ApplyEvent(state, recorded.event, recorded.at).value, done)
  {
    EffectsAfter(state, recorded.event, recorded.at);
    hide ApplyEvent, Count;
    CountGrows(log, recorded, Finalizes(done));
    CountGrows(log, recorded, Undoes(done));
    CountGrows(log, recorded, GivesUp(done));
  }

  lemma EffectsAfter(state: RunState, event: RunEvent, at: Time)
    requires ApplyEvent(state, event, at).Ok?
    ensures var after := ApplyEvent(state, event, at).value;
            && after.completed == state.completed + (if event.EffectFinalized? then {(event.node, event.effect)} else {})
            && after.compensated == state.compensated + (if event.Compensated? then {(event.node, event.effect)} else {})
            && after.uncertain == state.uncertain + (if event.EffectUncertain? then [(event.node, event.effect)] else [])
            && after.finalizedOrder ==
                 state.finalizedOrder + (if event.EffectFinalized? then [(event.node, event.effect)] else [])
  {
    hide Without;
  }

  predicate Resolves(event: RunEvent, node: Identifier, effect: Identifier) {
    (event.EffectFinalized? || event.EffectAbandoned? || event.EffectUncertain?) && event.node == node && event.effect == effect
  }

  /** The claim at `p` is open: nothing after it resolves its effect. */
  predicate IsOpen(log: seq<RecordedEvent>, p: nat)
    requires p < |log|
  {
    && log[p].event.EffectClaimed?
    && forall q :: p < q < |log| ==> !Resolves(log[q].event, log[p].event.node, log[p].event.effect)
  }

  /** The open claims among the first so many events, oldest first. */
  function OpenClaims(log: seq<RecordedEvent>, n: nat): seq<OutstandingEffect>
    requires n <= |log|
  {
    if n == 0 then []
    else
      var event := log[n - 1].event;
      OpenClaims(log, n - 1)
      + (if IsOpen(log, n - 1) then [OutstandingEffect(event.node, event.effect, event.attempt, event.key)] else [])
  }

  /** The claims that are not on one effect. */
  function Drop(claims: seq<OutstandingEffect>, node: Identifier, effect: Identifier): seq<OutstandingEffect> {
    if claims == [] then []
    else
      var rest := Drop(claims[1..], node, effect);
      if claims[0].node == node && claims[0].effect == effect then rest else [claims[0]] + rest
  }

  lemma {:induction false} DropIsWithout(claims: seq<OutstandingEffect>, node: Identifier, effect: Identifier)
    ensures Drop(claims, node, effect) == Without(claims, node, effect)
  {
    if claims != [] {
      DropIsWithout(claims[1..], node, effect);
    }
  }

  lemma {:induction false} DropAppend(
    claims: seq<OutstandingEffect>, claim: OutstandingEffect, node: Identifier, effect: Identifier)
    ensures Drop(claims + [claim], node, effect) ==
      Drop(claims, node, effect) + if claim.node == node && claim.effect == effect then [] else [claim]
  {
    var whole := claims + [claim];
    if claims == [] {
      assert whole == [claim] && whole[1..] == [];
    } else {
      DropAppend(claims[1..], claim, node, effect);
      assert whole[1..] == claims[1..] + [claim] && whole[0] == claims[0];
    }
  }

  lemma {:induction false} OpenClaimsGrow(log: seq<RecordedEvent>, recorded: RecordedEvent, n: nat)
    requires n <= |log|
    ensures var event := recorded.event;
            OpenClaims(log + [recorded], n) ==
              if event.EffectFinalized? || event.EffectAbandoned? || event.EffectUncertain?
              then Drop(OpenClaims(log, n), event.node, event.effect) else OpenClaims(log, n)
  {
    if n > 0 {
      OpenClaimsGrow(log, recorded, n - 1);
      var longer, event := log + [recorded], recorded.event;
      assert longer[n - 1] == log[n - 1];
      OpenGrows(log, recorded, n - 1);
      hide IsOpen;
      assert OpenClaims(log, n - 1) + [] == OpenClaims(log, n - 1);
      assert OpenClaims(longer, n - 1) + [] == OpenClaims(longer, n - 1);
      if IsOpen(log, n - 1) && (event.EffectFinalized? || event.EffectAbandoned? || event.EffectUncertain?) {
        var claim := log[n - 1].event;
        DropAppend(OpenClaims(log, n - 1), OutstandingEffect(claim.node, claim.effect, claim.attempt, claim.key),
                   event.node, event.effect);
      }
    }
  }

  lemma OpenGrows(log: seq<RecordedEvent>, recorded: RecordedEvent, p: nat)
    requires p < |log|
    ensures IsOpen(log + [recorded], p) <==>
      IsOpen(log, p) && !Resolves(recorded.event, log[p].event.node, log[p].event.effect)
    ensures IsOpen(log, p) ==> log[p].event.EffectClaimed?
  {
    var longer := log + [recorded];
    assert longer[|log|] == recorded;
    assert forall q :: p <= q < |log| ==> longer[q] == log[q];
  }

  ghost predicate ClaimsRead(log: seq<RecordedEvent>, state: RunState) {
    state.outstanding == OpenClaims(log, |log|)
  }

  lemma ApplyReadsClaims(log: seq<RecordedEvent>, state: RunState, recorded: RecordedEvent)
    requires ClaimsRead(log, state) && ApplyEvent(state, recorded.event, recorded.at).Ok?
    ensures ClaimsRead(log + [recorded], ApplyEvent(state, recorded.event, recorded.at).value)
  {
    var event := recorded.event;
    ClaimsAfter(state, event, recorded.at);
    hide ApplyEvent;
    OpenClaimsGrow(log, recorded, |log|);
    if event.EffectFinalized? || event.EffectAbandoned? || event.EffectUncertain? {
      DropIsWithout(state.outstanding, event.node, event.effect);
    }
    assert (log + [recorded])[|log|] == recorded;
    assert IsOpen(log + [recorded], |log|) <==> recorded.event.EffectClaimed?;
  }

  lemma ClaimsAfter(state: RunState, event: RunEvent, at: Time)
    requires ApplyEvent(state, event, at).Ok?
    ensures ApplyEvent(state, event, at).value.outstanding ==
      if event.EffectClaimed? then
        state.outstanding + [OutstandingEffect(event.node, event.effect, event.attempt, event.key)]
      else if event.EffectFinalized? || event.EffectAbandoned? || event.EffectUncertain? then
        Without(state.outstanding, event.node, event.effect)
      else state.outstanding
  {
    hide Without;
  }

  // ---- The whole state. ----

  /** Everything a folded state holds, as the log says it. */
  ghost predicate Reads(log: seq<RecordedEvent>, state: RunState) {
    && RunRead(log, state) && ClaimsRead(log, state) && state.nextPosition == |log|
    && (forall node, port :: NodeRead(log, state, node, port))
    && (forall region :: LoopRead(log, state, region))
    && (forall done :: EffectRead(log, state, done))
  }

  lemma ApplyReads(log: seq<RecordedEvent>, state: RunState, recorded: RecordedEvent)
    requires Reads(log, state) && Apply(state, recorded).Ok?
    ensures Reads(log + [recorded], Apply(state, recorded).value)
  {
    var after := ApplyEvent(state, recorded.event, recorded.at).value;
    var placed := Apply(state, recorded).value;
    hide ApplyEvent, OutputsRead, RunningRead, ControlRead, FailuresRead, LoopRead, EffectRead, RunRead, ClaimsRead;
    ApplyReadsRun(log, state, recorded);
    ApplyReadsClaims(log, state, recorded);
    PlaceReads(log + [recorded], after, placed);
    forall node, port
      ensures NodeRead(log + [recorded], placed, node, port)
    {
      assert NodeRead(log, state, node, port);
      ApplyReadsOutputs(log, state, recorded, node);
      ApplyReadsRunning(log, state, recorded, node);
      ApplyReadsControl(log, state, recorded, node, port);
      ApplyReadsFailures(log, state, recorded, node);
      PlaceReadsNode(log + [recorded], after, placed, node, port);
    }
    forall region
      ensures LoopRead(log + [recorded], placed, region)
    {
      ApplyReadsLoop(log, state, recorded, region);
      PlaceReadsLoop(log + [recorded], after, placed, region);
    }
    forall done
      ensures EffectRead(log + [recorded], placed, done)
    {
      ApplyReadsEffect(log, state, recorded, done);
      PlaceReadsEffect(log + [recorded], after, placed, done);
    }
  }

  lemma PlaceReads(log: seq<RecordedEvent>, state: RunState, placed: RunState)
    requires placed == state.(nextPosition := placed.nextPosition, epoch := placed.epoch)
    ensures RunRead(log, state) ==> RunRead(log, placed)
    ensures ClaimsRead(log, state) ==> ClaimsRead(log, placed)
  {
  }

  lemma PlaceReadsNode(log: seq<RecordedEvent>, state: RunState, placed: RunState, node: Identifier, port: string)
    requires placed == state.(nextPosition := placed.nextPosition, epoch := placed.epoch)
    ensures NodeRead(log, state, node, port) ==> NodeRead(log, placed, node, port)
  {
  }

  lemma PlaceReadsLoop(log: seq<RecordedEvent>, state: RunState, placed: RunState, region: Identifier)
    requires placed == state.(nextPosition := placed.nextPosition, epoch := placed.epoch)
    ensures LoopRead(log, state, region) ==> LoopRead(log, placed, region)
  {
  }

  lemma PlaceReadsEffect(log: seq<RecordedEvent>, state: RunState, placed: RunState, done: EffectRef)
    requires placed == state.(nextPosition := placed.nextPosition, epoch := placed.epoch)
    ensures EffectRead(log, state, done) ==> EffectRead(log, placed, done)
  {
  }

  lemma OpeningReads(recorded: RecordedEvent)
    requires recorded.event.Admission? && recorded.position == 0
    ensures Reads([recorded], Opening(recorded.epoch))
  {
    var log := [recorded];
    assert log[..0] == [];
    forall node: Identifier, port: string
      ensures NodeRead(log, Opening(recorded.epoch), node, port)
    {
      assert FailuresIn(log[..0], node) == [];
    }
    forall region: Identifier
      ensures LoopRead(log, Opening(recorded.epoch), region)
    {
      assert Count(log[..0], Opens(region)) == 0 && Count(log[..0], Closes(region)) == 0;
    }
    forall done: EffectRef
      ensures EffectRead(log, Opening(recorded.epoch), done)
    {
      assert Count(log[..0], Finalizes(done)) == 0 && Count(log[..0], Undoes(done)) == 0
             && Count(log[..0], GivesUp(done)) == 0;
    }
    assert OpenClaims(log, 0) == [] && !IsOpen(log, 0);
  }

  /** A log that folds, folds to the state it reads as. */
  lemma {:induction false} FoldReadsTheLog(log: seq<RecordedEvent>)
    requires Fold(log).Ok?
    ensures Reads(log, Fold(log).value)
  {
    hide Reads, Apply;
    if |log| == 1 {
      assert log == [log[0]];
      OpeningReads(log[0]);
    } else {
      var before, last := log[..|log| - 1], log[|log| - 1];
      FoldReadsTheLog(before);
      ApplyReads(before, Fold(before).value, last);
      assert log == before + [last];
    }
  }

  // ---- Which logs fold. ----

  ghost predicate HasEnded(log: seq<RecordedEvent>) {
    exists q :: 0 <= q < |log| && EndsRun(log[q].event)
  }

  ghost predicate HasOpenClaim(log: seq<RecordedEvent>, node: Identifier, effect: Identifier) {
    exists p :: 0 <= p < |log| && IsOpen(log, p) && log[p].event.node == node && log[p].event.effect == effect
  }

  function Capped(count: nat): nat {
    if count > U32_MAX then U32_MAX else count
  }

  /** Why a recorded event cannot follow a log, said on the log alone. */
  ghost function Refusal(before: seq<RecordedEvent>, recorded: RecordedEvent): Option<FoldError> {
    if recorded.position != |before| then Some(OutOfOrder)
    else if HasEnded(before) then Some(AfterTerminal)
    else
      match recorded.event
      case Admission(_, _) => Some(AfterTerminal)
      case NodeStarted(node) => if StartedIn(before, node).Some? then Some(StartedTwice(node)) else None
      case NodeFinished(node, _, _) => if StartedIn(before, node).None? then Some(FinishedWithoutStarting(node)) else None
      case EffectFinalized(node, effect, _, _) =>
        if HasOpenClaim(before, node, effect) then None else Some(FinalizedWithoutClaim(node, effect))
      case IterationStarted(region, _, _) =>
        if Capped(Count(before, Opens(region))) > Capped(Count(before, Closes(region)))
        then Some(IterationAlreadyOpen(region)) else None
      case IterationFinished(region, _) =>
        if Capped(Count(before, Opens(region))) > Capped(Count(before, Closes(region)))
        then None else Some(IterationWithoutStart(region))
      case Resumed(_, _) => if WaitIn(before).None? then Some(ResumedWithoutWait) else None
      case _ => None
  }

  lemma {:induction false} EndedIsTerminal(log: seq<RecordedEvent>)
    requires Fold(log).Ok?
    ensures Fold(log).value.status.IsTerminal() <==> HasEnded(log)
  {
    if |log| > 1 {
      var before, last := log[..|log| - 1], log[|log| - 1];
      EndedIsTerminal(before);
      StatusEnds(Fold(before).value, last.event, last.at);
      hide ApplyEvent;
      assert forall q :: 0 <= q < |before| ==> log[q] == before[q];
    }
  }

  lemma StatusEnds(state: RunState, event: RunEvent, at: Time)
    requires ApplyEvent(state, event, at).Ok? && !state.status.IsTerminal()
    ensures ApplyEvent(state, event, at).value.status.IsTerminal() <==> EndsRun(event)
  {
  }

  lemma {:induction false} OpenClaimsHold(log: seq<RecordedEvent>, n: nat, node: Identifier, effect: Identifier)
    requires n <= |log|
    ensures (exists claim :: claim in OpenClaims(log, n) && claim.node == node && claim.effect == effect) <==>
      exists p :: 0 <= p < n && IsOpen(log, p) && log[p].event.node == node && log[p].event.effect == effect
  {
    if n > 0 {
      OpenClaimsHold(log, n - 1, node, effect);
      var event := log[n - 1].event;
      if IsOpen(log, n - 1) {
        var last := OutstandingEffect(event.node, event.effect, event.attempt, event.key);
        assert OpenClaims(log, n) == OpenClaims(log, n - 1) + [last];
        assert last in OpenClaims(log, n);
        hide IsOpen;
      } else {
        assert OpenClaims(log, n) == OpenClaims(log, n - 1);
        hide IsOpen;
      }
    }
  }

  /** The same refusal, said on the state. */
  ghost function RefusalIn(state: RunState, event: RunEvent): Option<FoldError> {
    match event
    case Admission(_, _) => Some(AfterTerminal)
    case NodeStarted(node) => if node in state.running then Some(StartedTwice(node)) else None
    case NodeFinished(node, _, _) => if node !in state.running then Some(FinishedWithoutStarting(node)) else None
    case EffectFinalized(node, effect, _, _) =>
      if exists claim :: claim in state.outstanding && claim.node == node && claim.effect == effect
      then None else Some(FinalizedWithoutClaim(node, effect))
    case IterationStarted(region, _, _) =>
      if state.LoopOf(region).started > state.LoopOf(region).finished then Some(IterationAlreadyOpen(region)) else None
    case IterationFinished(region, _) =>
      if state.LoopOf(region).started > state.LoopOf(region).finished then None else Some(IterationWithoutStart(region))
    case Resumed(_, _) => if state.waitingOn.None? then Some(ResumedWithoutWait) else None
    case _ => None
  }

  lemma RefusesInState(state: RunState, event: RunEvent, at: Time)
    ensures match RefusalIn(state, event)
            case None => ApplyEvent(state, event, at).Ok?
            case Some(error) => ApplyEvent(state, event, at) == Err(error)
  {
  }

  lemma SameRefusal(before: seq<RecordedEvent>, state: RunState, recorded: RecordedEvent)
    requires Reads(before, state) && recorded.position == |before| && !HasEnded(before)
    ensures Refusal(before, recorded) == RefusalIn(state, recorded.event)
  {
    hide Count, HasEnded, StartedIn, WaitIn, IsOpen, OutputsRead, ControlRead, FailuresRead, OpenClaims, EffectRead;
    hide Opens, Closes, OpenedIn, BrokenIn, StoppedIn, CancelIn, RunStartedIn, FailureIn;
    match recorded.event
    case NodeStarted(node) => assert NodeRead(before, state, node, "");
    case NodeFinished(node, _, _) => assert NodeRead(before, state, node, "");
    case EffectFinalized(node, effect, _, _) => OpenClaimsHold(before, |before|, node, effect);
    case IterationStarted(region, _, _) => assert LoopRead(before, state, region);
    case IterationFinished(region, _) => assert LoopRead(before, state, region);
    case _ =>
  }

  lemma RefusesExactlyWhen(before: seq<RecordedEvent>, state: RunState, recorded: RecordedEvent)
    requires Fold(before) == Ok(state)
    ensures match Refusal(before, recorded)
            case None => Apply(state, recorded).Ok?
            case Some(error) => Apply(state, recorded) == Err(error)
  {
    FoldReadsTheLog(before);
    EndedIsTerminal(before);
    RefusesInState(state, recorded.event, recorded.at);
    if recorded.position == |before| && !HasEnded(before) {
      SameRefusal(before, state, recorded);
    }
    hide Fold, HasEnded, ApplyEvent, RefusalIn, StartedIn, WaitIn, Count, HasOpenClaim;
  }

  /** The log is admitted first, and no event of it is refused by the ones before. */
  ghost predicate Follows(log: seq<RecordedEvent>) {
    RunStates.Opens(log) && forall p :: 1 <= p < |log| ==> Refusal(log[..p], log[p]).None?
  }

  /** A log folds exactly when each of its events may follow the ones before. */
  lemma {:induction false} FoldsExactlyWhen(log: seq<RecordedEvent>)
    ensures Fold(log).Ok? <==> Follows(log)
  {
    hide Refusal, Apply;
    if |log| > 1 && RunStates.Opens(log) {
      var before, last := log[..|log| - 1], log[|log| - 1];
      FoldsExactlyWhen(before);
      assert forall p :: 1 <= p < |before| ==> before[..p] == log[..p] && before[p] == log[p];
      if Fold(before).Ok? {
        RefusesExactlyWhen(before, Fold(before).value, last);
      }
    }
  }

  /** The first event that may not follow decides the error, whatever comes after it. */
  lemma FirstRefusalIsTheError(log: seq<RecordedEvent>, p: nat)
    requires 1 <= p < |log| && Follows(log[..p]) && Refusal(log[..p], log[p]).Some?
    ensures Fold(log) == Err(Refusal(log[..p], log[p]).value)
  {
    FoldsExactlyWhen(log[..p]);
    RefusesExactlyWhen(log[..p], Fold(log[..p]).value, log[p]);
    hide Refusal, Apply;
    assert log[..p + 1][..p] == log[..p] && log[..p + 1][p] == log[p];
    FoldKeepsError(log, p + 1);
  }
}
